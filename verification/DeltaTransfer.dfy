/**
 What a reconstruction is worth. Whatever a peer sends, in whatever order, the save file is either
 untouched or has the manifest's hash; and when peer and manifest tell the truth, fetching only the
 different blocks rebuilds the remote file byte for byte.
 */
module DeltaTransfer {
  import opened Basics
  import opened Manifests
  import opened Blocks
  import opened PatchWriting

  datatype Op =
    | WriteOp(index: int, data: bytes)
    | SeedOp(src: Option<bytes>, incoming: set<int>)
    | AbortOp
    | CommitOp(diskOk: bool)

  function Step(sha: bytes -> string, entry: FileEntry, w: Writer, op: Op): Writer {
    match op
    case WriteOp(index, data) => WriteStep(entry, w, index, data)
    case SeedOp(src, incoming) => SeedStep(entry, w, src, incoming).0
    case AbortOp => AbortStep(w)
    case CommitOp(diskOk) => CommitStep(sha, entry, w, diskOk)
  }

  function Run(sha: bytes -> string, entry: FileEntry, w: Writer, ops: seq<Op>): Writer {
    if ops == [] then w else Step(sha, entry, Run(sha, entry, w, ops[..|ops| - 1]), ops[|ops| - 1])
  }

  lemma RunAppend(sha: bytes -> string, entry: FileEntry, w: Writer, ops: seq<Op>, op: Op)
    ensures Run(sha, entry, w, ops + [op]) == Step(sha, entry, Run(sha, entry, w, ops), op)
  {
    assert (ops + [op])[..|ops|] == ops;
  }

  lemma RunLast(sha: bytes -> string, entry: FileEntry, w: Writer, ops: seq<Op>)
    requires ops != []
    ensures Run(sha, entry, w, ops) == Step(sha, entry, Run(sha, entry, w, ops[..|ops| - 1]), ops[|ops| - 1])
  {
  }

  // ----- Safety for arbitrary peers

  lemma {:induction false} SeedLeavesTarget(entry: FileEntry, w: Writer, src: bytes, missing: seq<Block>, buf: bytes)
    requires |buf| == EffectiveBlockSize(entry)
    ensures
      var after := SeedBlocks(entry, w, src, missing, buf).0;
      after.target == w.target && after.written <= w.written + set b | b in missing :: b.index
    decreases |missing|
  {
    hide WriteRefused, EffectiveBlockSize, Offset, Wrap64;
    if missing != [] {
      var block := missing[0];
      var offset := Wrap64(Offset(EffectiveBlockSize(entry), block.index));
      var n := if block.length > |buf| then |buf| else block.length;
      if offset >= 0 {
        var filled := ReadInto(buf, src, offset, n);
        SeedLeavesTarget(entry, WriteStep(entry, w, block.index, filled[..n]), src, missing[1..], filled);
      }
    }
  }

  lemma {:induction false} MissingMembers(blocks: seq<Block>, incoming: set<int>)
    ensures forall b :: b in Missing(blocks, incoming) <==> b in blocks && b.index !in incoming
  {
    if blocks != [] {
      MissingMembers(blocks[..|blocks| - 1], incoming);
      assert blocks == blocks[..|blocks| - 1] + [blocks[|blocks| - 1]];
    }
  }

  ghost predicate Supplies(entry: FileEntry, op: Op, index: int) {
    match op
    case WriteOp(i, _) => i == index
    case SeedOp(_, incoming) => index !in incoming && exists b :: b in entry.blocks && b.index == index
    case _ => false
  }

  /** A step leaves the save file alone unless it is an accepted commit, and marks only what it supplies. */
  lemma StepIsSafe(sha: bytes -> string, entry: FileEntry, w: Writer, op: Op)
    ensures
      var after := Step(sha, entry, w, op);
      && (after.target != w.target ==>
            op.CommitOp? && CommitAccepted(sha, entry, w, op.diskOk) && after.target == w.tmp)
      && (forall i :: i in after.written ==> i in w.written || Supplies(entry, op, i))
  {
    if op.SeedOp? && op.src.Some? {
      hide WriteRefused, EffectiveBlockSize, Offset, Wrap64;
      MissingMembers(entry.blocks, op.incoming);
      SeedLeavesTarget(entry, w, op.src.value, Missing(entry.blocks, op.incoming), Zeros(EffectiveBlockSize(entry)));
    }
  }

  lemma {:induction false} WrittenWasSupplied(sha: bytes -> string, entry: FileEntry, target: Option<bytes>,
                                        ops: seq<Op>, index: int)
    requires index in Run(sha, entry, Opened(entry, target), ops).written
    ensures exists k :: 0 <= k < |ops| && Supplies(entry, ops[k], index)
  {
    if ops != [] {
      var last := |ops| - 1;
      var before := Run(sha, entry, Opened(entry, target), ops[..last]);
      StepIsSafe(sha, entry, before, ops[last]);
      if index in before.written {
        WrittenWasSupplied(sha, entry, target, ops[..last], index);
        var k :| 0 <= k < last && Supplies(entry, ops[..last][k], index);
        assert Supplies(entry, ops[k], index);
      } else {
        assert Supplies(entry, ops[last], index);
      }
    }
  }

  lemma {:induction false} ChangedBySuppliedBlocks(sha: bytes -> string, entry: FileEntry, target: Option<bytes>,
                                                   ops: seq<Op>)
    ensures
      var after := Run(sha, entry, Opened(entry, target), ops);
      after.target == target ||
      (&& after.target.Some? && sha(after.target.value) == entry.hash && CommitOp(true) in ops
       && forall b :: b in entry.blocks ==> exists k :: 0 <= k < |ops| && Supplies(entry, ops[k], b.index))
  {
    if ops != [] {
      var last := |ops| - 1;
      var before := Run(sha, entry, Opened(entry, target), ops[..last]);
      ChangedBySuppliedBlocks(sha, entry, target, ops[..last]);
      StepIsSafe(sha, entry, before, ops[last]);
      forall b | b in entry.blocks && (before.target != target || CommitAccepted(sha, entry, before, true))
        ensures exists k :: 0 <= k < |ops| && Supplies(entry, ops[k], b.index)
      {
        var k: int;
        if before.target != target {
          k :| 0 <= k < last && Supplies(entry, ops[..last][k], b.index);
        } else {
          WrittenWasSupplied(sha, entry, target, ops[..last], b.index);
          k :| 0 <= k < last && Supplies(entry, ops[..last][k], b.index);
        }
        assert Supplies(entry, ops[k], b.index);
      }
    }
  }

  /**
   For every sequence of steps with any indices and any data, the save file is untouched, or it
   changed at one commit whose disk operations succeeded: then it has the manifest's whole-file hash, and
   every block the manifest lists had been written or seeded before.
   */
  lemma SaveFileIsSafe(sha: bytes -> string, entry: FileEntry, target: Option<bytes>, ops: seq<Op>)
    ensures
      var after := Run(sha, entry, Opened(entry, target), ops);
      after.target == target ||
      (&& after.target.Some? && sha(after.target.value) == entry.hash && CommitOp(true) in ops
       && forall b :: b in entry.blocks ==>
            exists k :: 0 <= k < |ops| &&
              ((ops[k].WriteOp? && ops[k].index == b.index) || (ops[k].SeedOp? && b.index !in ops[k].incoming)))
  {
    ChangedBySuppliedBlocks(sha, entry, target, ops);
    hide Run;
  }

  // ----- What a step refuses

  /**
   Written into an open file of the right length, a block that ends inside it is put in its place and
   marked, and every other byte stays; one that would end outside is refused, and refusing is remembered.
   */
  lemma WriteInPlaceIff(entry: FileEntry, w: Writer, index: nat, data: bytes)
    requires !w.closed && !w.failed && w.tmp.Some? && |w.tmp.value| == TotalLength(entry.blocks)
    requires index * (if entry.blockSize <= 0 then 65_536 else entry.blockSize) + |data| <= MaxInt64
    ensures
      var offset := index * (if entry.blockSize <= 0 then 65_536 else entry.blockSize);
      var after := WriteStep(entry, w, index, data);
      if offset + |data| <= TotalLength(entry.blocks) then
        && after.tmp.Some? && |after.tmp.value| == |w.tmp.value|
        && (forall k :: 0 <= k < |w.tmp.value| ==>
              after.tmp.value[k] == if offset <= k < offset + |data| then data[k - offset] else w.tmp.value[k])
        && after == w.(tmp := after.tmp, written := w.written + {index})
      else
        after == w.(failed := true)
  {
    OffsetMonotone(EffectiveBlockSize(entry), 0, index);
    OffsetStep(EffectiveBlockSize(entry), 0);
    var offset := Offset(EffectiveBlockSize(entry), index);
    assert offset == index * (if entry.blockSize <= 0 then 65_536 else entry.blockSize);
    hide Offset, EffectiveBlockSize;
    if offset + |data| <= TotalLength(entry.blocks) {
      OverwriteBytes(w.tmp.value, offset, data);
    }
  }

  /** The save file is replaced exactly when nothing failed, nothing is missing, the disk and the hash agree. */
  lemma CommitReplacesIff(sha: bytes -> string, entry: FileEntry, w: Writer, diskOk: bool)
    requires w.target != w.tmp
    ensures
      var after := CommitStep(sha, entry, w, diskOk);
      && (after.target == w.tmp <==>
            && diskOk && !w.failed && !w.closed && w.tmp.Some? && sha(w.tmp.value) == entry.hash
            && forall b :: b in entry.blocks ==> b.index in w.written)
      && (after.target != w.tmp ==> after.target == w.target)
  {
  }

  /** After an abort no step changes the save file, and writing anything is an error. */
  lemma {:induction false} AbortIsFinal(sha: bytes -> string, entry: FileEntry, w: Writer, ops: seq<Op>)
    ensures
      var after := Run(sha, entry, AbortStep(w), ops);
      && after.target == w.target && after.tmp == None && after.closed
      && forall index, data :: data != [] ==> WriteStep(entry, after, index, data) == after.(failed := true)
  {
    if ops != [] {
      AbortIsFinal(sha, entry, w, ops[..|ops| - 1]);
      var before := Run(sha, entry, AbortStep(w), ops[..|ops| - 1]);
      ClosedStays(sha, entry, before, ops[|ops| - 1]);
    }
  }

  lemma ClosedStays(sha: bytes -> string, entry: FileEntry, w: Writer, op: Op)
    requires w.closed && w.tmp == None
    ensures
      var after := Step(sha, entry, w, op);
      after.closed && after.tmp == None && after.target == w.target
  {
    hide WriteRefused, EffectiveBlockSize, Offset, Wrap64;
    if op.SeedOp? && op.src.Some? {
      SeedKeepsClosed(entry, w, op.src.value, Missing(entry.blocks, op.incoming), Zeros(EffectiveBlockSize(entry)));
    }
  }

  lemma {:induction false} SeedKeepsClosed(entry: FileEntry, w: Writer, src: bytes, missing: seq<Block>, buf: bytes)
    requires |buf| == EffectiveBlockSize(entry) && w.closed && w.tmp == None
    ensures
      var after := SeedBlocks(entry, w, src, missing, buf).0;
      after.closed && after.tmp == None && after.target == w.target
    decreases |missing|
  {
    hide WriteRefused, EffectiveBlockSize, Offset, Wrap64;
    if missing != [] {
      var block := missing[0];
      var offset := Wrap64(Offset(EffectiveBlockSize(entry), block.index));
      var n := if block.length > |buf| then |buf| else block.length;
      if offset >= 0 {
        var filled := ReadInto(buf, src, offset, n);
        SeedKeepsClosed(entry, WriteStep(entry, w, block.index, filled[..n]), src, missing[1..], filled);
      }
    }
  }

  /** Seeding that reports success has marked every block of the manifest that is not to come from the peer. */
  lemma SeedReportIsTrue(entry: FileEntry, w: Writer, src: Option<bytes>, incoming: set<int>)
    requires SeedStep(entry, w, src, incoming).1
    ensures forall b :: b in entry.blocks && b.index !in incoming ==>
              b.index in SeedStep(entry, w, src, incoming).0.written
  {
    MissingMembers(entry.blocks, incoming);
    if Missing(entry.blocks, incoming) != [] {
      SeededAll(entry, w, src.value, Missing(entry.blocks, incoming), Zeros(EffectiveBlockSize(entry)));
    }
  }

  lemma {:induction false} SeededAll(entry: FileEntry, w: Writer, src: bytes, missing: seq<Block>, buf: bytes)
    requires |buf| == EffectiveBlockSize(entry) && SeedBlocks(entry, w, src, missing, buf).1
    ensures w.written <= SeedBlocks(entry, w, src, missing, buf).0.written
    ensures forall b :: b in missing ==> b.index in SeedBlocks(entry, w, src, missing, buf).0.written
    decreases |missing|
  {
    hide WriteRefused, EffectiveBlockSize, Offset, Wrap64;
    if missing != [] {
      var block := missing[0];
      var offset := Wrap64(Offset(EffectiveBlockSize(entry), block.index));
      var n := if block.length > |buf| then |buf| else block.length;
      var filled := ReadInto(buf, src, offset, n);
      SeededAll(entry, WriteStep(entry, w, block.index, filled[..n]), src, missing[1..], filled);
      assert forall b :: b in missing ==> b == block || b in missing[1..];
    }
  }

  // ----- Exactness for truthful peers

  lemma {:induction false} TotalLengthOfBlocks(sha: bytes -> string, content: bytes, blockSize: int, n: nat)
    requires blockSize > 0 && n <= BlockCount(|content|, blockSize)
    ensures TotalLength(BlocksOf(sha, content, blockSize)[..n])
         == if Offset(blockSize, n) <= |content| then Offset(blockSize, n) else |content|
  {
    var blocks := BlocksOf(sha, content, blockSize);
    if n == 0 {
      OffsetStep(blockSize, 0);
    } else {
      TotalLengthOfBlocks(sha, content, blockSize, n - 1);
      BlockCountBounds(|content|, blockSize, n - 1);
      OffsetStep(blockSize, n - 1);
      OffsetMonotone(blockSize, 0, n - 1);
      assert blocks[..n][..n - 1] == blocks[..n - 1];
      assert blocks[..n][n - 1] == BlockOf(sha, content, blockSize, n - 1);
    }
  }

  lemma EntryLength(sha: bytes -> string, content: bytes, mtimeMs: int)
    ensures TotalLength(EntryOf(sha, content, mtimeMs).blocks) == |content|
  {
    var blockSize := BlockSizeFor(|content|);
    var blocks := BlocksOf(sha, content, blockSize);
    var n := |blocks|;
    TotalLengthOfBlocks(sha, content, blockSize, n);
    BlockCountBounds(|content|, blockSize, n);
    assert blocks[..n] == blocks;
  }

  /** file and remote have the same bytes in block i. */
  ghost predicate AgreeOn(file: bytes, remote: bytes, blockSize: int, i: int)
    requires |file| == |remote|
  {
    forall k :: 0 <= k < |remote| && Offset(blockSize, i) <= k < Offset(blockSize, i) + blockSize ==>
        file[k] == remote[k]
  }

  /** Nothing has gone wrong, and every block marked as written is right. */
  ghost predicate OnTrack(w: Writer, remote: bytes, blockSize: int)
    requires blockSize > 0
  {
    && !w.failed && !w.closed && w.tmp.Some? && |w.tmp.value| == |remote|
    && forall i :: i in w.written ==>
        0 <= i < BlockCount(|remote|, blockSize) && AgreeOn(w.tmp.value, remote, blockSize, i)
  }

  lemma OverwriteBytes(file: bytes, offset: nat, data: bytes)
    requires offset + |data| <= |file|
    ensures |Overwrite(file, offset, data)| == |file|
    ensures forall k :: 0 <= k < |file| ==>
      Overwrite(file, offset, data)[k] == if offset <= k < offset + |data| then data[k - offset] else file[k]
  {
  }

  lemma BlockBytes(content: bytes, blockSize: int, i: nat)
    requires blockSize > 0 && i < BlockCount(|content|, blockSize)
    ensures
      var offset, data := Offset(blockSize, i), BlockAt(content, blockSize, i);
      && 0 <= offset && 0 < |data| <= blockSize && offset + |data| <= |content|
      && (|data| == blockSize || offset + |data| == |content|)
      && data == content[offset..offset + |data|]
  {
    BlockCountBounds(|content|, blockSize, i);
    OffsetMonotone(blockSize, 0, i);
  }

  /** Putting a remote block in place makes it agree and keeps whatever agreed. */
  lemma OverwriteAgrees(file: bytes, remote: bytes, blockSize: int, i: nat, j: int)
    requires blockSize > 0 && |file| == |remote| && i < BlockCount(|remote|, blockSize)
    requires j == i || AgreeOn(file, remote, blockSize, j)
    ensures 0 <= Offset(blockSize, i) && Offset(blockSize, i) + |BlockAt(remote, blockSize, i)| <= |remote|
    ensures |Overwrite(file, Offset(blockSize, i), BlockAt(remote, blockSize, i))| == |file|
    ensures AgreeOn(Overwrite(file, Offset(blockSize, i), BlockAt(remote, blockSize, i)), remote, blockSize, j)
  {
    hide Offset, BlockCount, BlockAt, Overwrite;
    BlockBytes(remote, blockSize, i);
    OverwriteBytes(file, Offset(blockSize, i), BlockAt(remote, blockSize, i));
  }

  /** A truthful block is not refused, and lands where it belongs. */
  lemma TruthfulWriteStep(sha: bytes -> string, remote: bytes, mtimeMs: int, w: Writer, i: nat)
    requires |remote| <= MaxInt64 && !w.closed && w.tmp.Some? && |w.tmp.value| == |remote|
    requires i < BlockCount(|remote|, BlockSizeFor(|remote|))
    ensures
      var entry, data := EntryOf(sha, remote, mtimeMs), BlockAt(remote, BlockSizeFor(|remote|), i);
      var offset := Offset(BlockSizeFor(|remote|), i);
      && 0 <= offset && offset + |data| <= |remote|
      && !WriteRefused(entry, w, i, data)
      && WriteStep(entry, w, i, data) ==
          w.(written := w.written + {i}, tmp := Some(Overwrite(w.tmp.value, offset, data)))
  {
    EntryLength(sha, remote, mtimeMs);
    BlockCountBounds(|remote|, BlockSizeFor(|remote|), i);
    OffsetMonotone(BlockSizeFor(|remote|), 0, i);
    hide Offset, BlockCount, TotalLength, BlocksOf, Overwrite;
  }

  lemma TruthfulWrite(sha: bytes -> string, remote: bytes, mtimeMs: int, w: Writer, i: nat)
    requires |remote| <= MaxInt64
    requires OnTrack(w, remote, BlockSizeFor(|remote|)) && i < BlockCount(|remote|, BlockSizeFor(|remote|))
    ensures
      var entry, data := EntryOf(sha, remote, mtimeMs), BlockAt(remote, BlockSizeFor(|remote|), i);
      var after := WriteStep(entry, w, i, data);
      && !WriteRefused(entry, w, i, data) && OnTrack(after, remote, BlockSizeFor(|remote|))
      && after.written == w.written + {i}
  {
    hide WriteStep, WriteRefused, Offset, BlockCount, BlockAt, EntryOf, Overwrite, OnTrack;
    OnTrackIsOpen(w, remote, BlockSizeFor(|remote|));
    TruthfulWriteStep(sha, remote, mtimeMs, w, i);
    OnTrackAfterOverwrite(w, remote, BlockSizeFor(|remote|), i);
  }

  lemma OnTrackAfterOverwrite(w: Writer, remote: bytes, blockSize: int, i: nat)
    requires blockSize > 0 && OnTrack(w, remote, blockSize) && i < BlockCount(|remote|, blockSize)
    ensures
      var offset, data := Offset(blockSize, i), BlockAt(remote, blockSize, i);
      && 0 <= offset && offset + |data| <= |w.tmp.value|
      && OnTrack(w.(written := w.written + {i}, tmp := Some(Overwrite(w.tmp.value, offset, data))), remote, blockSize)
  {
    hide Offset, BlockCount, BlockAt, AgreeOn, Overwrite;
    OverwriteAgrees(w.tmp.value, remote, blockSize, i, i);
    forall j | j in w.written + {i}
      ensures AgreeOn(Overwrite(w.tmp.value, Offset(blockSize, i), BlockAt(remote, blockSize, i)), remote, blockSize, j)
    {
      OverwriteAgrees(w.tmp.value, remote, blockSize, i, j);
    }
  }

  lemma OnTrackIsOpen(w: Writer, remote: bytes, blockSize: int)
    requires blockSize > 0 && OnTrack(w, remote, blockSize)
    ensures !w.failed && !w.closed && w.tmp.Some? && |w.tmp.value| == |remote|
  {
  }

  /** A block of the local file that equals the remote one is read whole, buffer leftovers or not. */
  lemma ReadUnchangedBlock(local: bytes, remote: bytes, blockSize: int, i: nat, buf: bytes)
    requires 0 < blockSize == |buf| && i < BlockCount(|remote|, blockSize)
    requires BlockAt(local, blockSize, i) == BlockAt(remote, blockSize, i)
    ensures
      var n := |BlockAt(remote, blockSize, i)|;
      && n <= blockSize && 0 <= Offset(blockSize, i)
      && ReadInto(buf, local, Offset(blockSize, i), n)[..n] == BlockAt(remote, blockSize, i)
  {
    hide Offset, BlockCount, BlockAt;
    BlockBytes(remote, blockSize, i);
    LocalBlockBytes(local, blockSize, i);
  }

  lemma LocalBlockBytes(content: bytes, blockSize: int, i: nat)
    requires blockSize > 0 && BlockAt(content, blockSize, i) != []
    ensures
      var offset, data := Offset(blockSize, i), BlockAt(content, blockSize, i);
      0 <= offset && offset + |data| <= |content| && data == content[offset..offset + |data|]
  {
  }

  ghost predicate Unchanged(sha: bytes -> string, local: bytes, remote: bytes, blockSize: int, block: Block)
    requires blockSize > 0
  {
    && 0 <= block.index < BlockCount(|remote|, blockSize)
    && block == BlockOf(sha, remote, blockSize, block.index)
    && BlockAt(local, blockSize, block.index) == BlockAt(remote, blockSize, block.index)
  }

  lemma {:induction false} TruthfulSeed(sha: bytes -> string, local: bytes, remote: bytes, mtimeMs: int, w: Writer,
                                        missing: seq<Block>, buf: bytes)
    requires |remote| <= MaxInt64 && |buf| == EffectiveBlockSize(EntryOf(sha, remote, mtimeMs))
    requires OnTrack(w, remote, BlockSizeFor(|remote|))
    requires forall b :: b in missing ==> Unchanged(sha, local, remote, BlockSizeFor(|remote|), b)
    ensures
      var (after, ok) := SeedBlocks(EntryOf(sha, remote, mtimeMs), w, local, missing, buf);
      && ok && OnTrack(after, remote, BlockSizeFor(|remote|))
      && after.written == w.written + set b | b in missing :: b.index
    decreases |missing|
  {
    hide Offset, BlockCount, TotalLength, BlocksOf, OnTrack, WriteRefused, WriteStep, ReadInto, BlockAt;
    if missing != [] {
      var entry, blockSize := EntryOf(sha, remote, mtimeMs), BlockSizeFor(|remote|);
      var block := missing[0];
      assert Unchanged(sha, local, remote, blockSize, block);
      OffsetInRange(|remote|, blockSize, block.index);
      ReadUnchangedBlock(local, remote, blockSize, block.index, buf);
      TruthfulWrite(sha, remote, mtimeMs, w, block.index);
      var filled := ReadInto(buf, local, Offset(blockSize, block.index), block.length);
      var next := WriteStep(entry, w, block.index, filled[..block.length]);
      TruthfulSeed(sha, local, remote, mtimeMs, next, missing[1..], filled);
      assert missing == [block] + missing[1..];
    }
  }

  lemma OffsetInRange(size: nat, blockSize: int, i: nat)
    requires blockSize > 0 && size <= MaxInt64 && i < BlockCount(size, blockSize)
    ensures Wrap64(Offset(blockSize, i)) == Offset(blockSize, i) >= 0
  {
    BlockCountBounds(size, blockSize, i);
    OffsetMonotone(blockSize, 0, i);
  }

  function LocalEntry(sha: bytes -> string, local: Option<bytes>, mtimeMs: int): Option<FileEntry> {
    if local.None? then None else Some(EntryOf(sha, local.value, mtimeMs))
  }

  /** The list DifferentBlockIndices returns. */
  ghost predicate FetchList(local: Option<FileEntry>, remote: FileEntry, indices: seq<int>) {
    forall i :: i in indices <==> 0 <= i < |remote.blocks| && NeedsFetch(local, remote, i)
  }

  /** SHA-256 tells apart the blocks that stand at the same place in the two files. */
  ghost predicate BlocksSeparate(sha: bytes -> string, local: Option<bytes>, remote: bytes) {
    local.Some? ==> forall i: nat ::
      var blockSize := BlockSizeFor(|remote|);
      sha(BlockAt(local.value, blockSize, i)) == sha(BlockAt(remote, blockSize, i)) ==>
        BlockAt(local.value, blockSize, i) == BlockAt(remote, blockSize, i)
  }

  /** One step of a truthful transfer: a requested block as the peer holds it, or the seeding. */
  ghost predicate TruthfulOp(local: Option<bytes>, remote: bytes, indices: seq<int>, op: Op) {
    match op
    case WriteOp(i, data) => i in indices && i >= 0 && data == BlockAt(remote, BlockSizeFor(|remote|), i)
    case SeedOp(src, incoming) => src == local && incoming == set i | i in indices
    case _ => false
  }

  /** Blocks not asked for are the same in both files. */
  lemma NotFetchedIsUnchanged(sha: bytes -> string, local: Option<bytes>, remote: bytes, lm: int, rm: int,
                              indices: seq<int>, block: Block)
    requires FetchList(LocalEntry(sha, local, lm), EntryOf(sha, remote, rm), indices) &&
        BlocksSeparate(sha, local, remote)
    requires block in EntryOf(sha, remote, rm).blocks && block.index !in indices
    ensures local.Some? && Unchanged(sha, local.value, remote, BlockSizeFor(|remote|), block)
  {
    var re := EntryOf(sha, remote, rm);
    var blockSize := BlockSizeFor(|remote|);
    var i :| 0 <= i < |re.blocks| && re.blocks[i] == block;
    assert block == BlockOf(sha, remote, blockSize, i);
    assert !NeedsFetch(LocalEntry(sha, local, lm), re, i);
    var le := EntryOf(sha, local.value, lm);
    assert le.blocks[i] == BlockOf(sha, local.value, blockSize, i);
  }

  lemma TruthfulSeedStep(sha: bytes -> string, local: Option<bytes>, remote: bytes, lm: int, rm: int,
                         indices: seq<int>, w: Writer, incoming: set<int>)
    requires |remote| <= MaxInt64 && BlocksSeparate(sha, local, remote)
    requires FetchList(LocalEntry(sha, local, lm), EntryOf(sha, remote, rm), indices)
    requires OnTrack(w, remote, BlockSizeFor(|remote|)) && incoming == set i | i in indices
    ensures
      var entry := EntryOf(sha, remote, rm);
      var (after, ok) := SeedStep(entry, w, local, incoming);
      && ok && OnTrack(after, remote, BlockSizeFor(|remote|)) && w.written <= after.written
      && forall b :: b in entry.blocks && b.index !in incoming ==> b.index in after.written
  {
    hide OnTrack, NeedsFetch, BlocksSeparate, WriteStep, SeedBlocks, FetchList, EntryOf, Unchanged;
    var entry := EntryOf(sha, remote, rm);
    var missing := Missing(entry.blocks, incoming);
    MissingMembers(entry.blocks, incoming);
    if missing != [] {
      forall b | b in missing ensures local.Some? && Unchanged(sha, local.value, remote, BlockSizeFor(|remote|), b) {
        NotFetchedIsUnchanged(sha, local, remote, lm, rm, indices, b);
      }
      assert missing[0] in missing;
      TruthfulSeed(sha, local.value, remote, rm, w, missing, Zeros(EffectiveBlockSize(entry)));
    } else {
      assert forall b :: b !in missing;
    }
  }

  ghost function SuppliedBlocks(entry: FileEntry, op: Op): set<int> {
    set i | 0 <= i < |entry.blocks| && Supplies(entry, op, i)
  }

  /** A truthful step keeps the writer on track and marks every block it supplies. */
  lemma TruthfulStep(sha: bytes -> string, local: Option<bytes>, remote: bytes, lm: int, rm: int,
                     indices: seq<int>, w: Writer, op: Op)
    requires |remote| <= MaxInt64 && BlocksSeparate(sha, local, remote)
    requires FetchList(LocalEntry(sha, local, lm), EntryOf(sha, remote, rm), indices)
    requires OnTrack(w, remote, BlockSizeFor(|remote|)) && TruthfulOp(local, remote, indices, op)
    ensures
      var entry := EntryOf(sha, remote, rm);
      var after := Step(sha, entry, w, op);
      && OnTrack(after, remote, BlockSizeFor(|remote|)) && w.written <= after.written
      && SuppliedBlocks(entry, op) <= after.written
  {
    match op {
      case WriteOp(i, data) =>
        assert 0 <= i < |EntryOf(sha, remote, rm).blocks|;
        hide OnTrack, NeedsFetch, BlocksSeparate, WriteStep;
        TruthfulWrite(sha, remote, rm, w, i);
      case SeedOp(src, incoming) =>
        hide OnTrack, NeedsFetch, BlocksSeparate, SeedStep, FetchList, EntryOf;
        TruthfulSeedStep(sha, local, remote, lm, rm, indices, w, incoming);
    }
  }

  lemma {:induction false} TruthfulRun(sha: bytes -> string, local: Option<bytes>, remote: bytes, lm: int, rm: int,
                                       indices: seq<int>, target: Option<bytes>, ops: seq<Op>)
    requires |remote| <= MaxInt64 && BlocksSeparate(sha, local, remote)
    requires FetchList(LocalEntry(sha, local, lm), EntryOf(sha, remote, rm), indices)
    requires forall op :: op in ops ==> TruthfulOp(local, remote, indices, op)
    ensures
      var entry := EntryOf(sha, remote, rm);
      var after := Run(sha, entry, Opened(entry, target), ops);
      && OnTrack(after, remote, BlockSizeFor(|remote|))
      && forall op :: op in ops ==> SuppliedBlocks(entry, op) <= after.written
  {
    var entry := EntryOf(sha, remote, rm);
    if ops == [] {
      EntryLength(sha, remote, rm);
    } else {
      var last := |ops| - 1;
      RunLast(sha, entry, Opened(entry, target), ops);
      hide OnTrack, BlocksSeparate, FetchList, EntryOf, Step, Opened, SuppliedBlocks, TruthfulOp, Run;
      TruthfulRun(sha, local, remote, lm, rm, indices, target, ops[..last]);
      var before := Run(sha, entry, Opened(entry, target), ops[..last]);
      TruthfulStep(sha, local, remote, lm, rm, indices, before, ops[last]);
      assert ops == ops[..last] + [ops[last]];
    }
  }

  lemma FullyWrittenIsRemote(w: Writer, remote: bytes, blockSize: int)
    requires blockSize > 0 && OnTrack(w, remote, blockSize)
    requires forall i :: 0 <= i < BlockCount(|remote|, blockSize) ==> i in w.written
    ensures w.tmp == Some(remote)
  {
    forall k | 0 <= k < |remote| ensures w.tmp.value[k] == remote[k] {
      var i := ByteHasBlock(|remote|, blockSize, k);
      assert AgreeOn(w.tmp.value, remote, blockSize, i);
    }
    assert w.tmp.value == remote;
  }

  /**
   Delta transfer is exact. Take any remote file and any local one (absent, shorter, longer, or cut
   with another block size). Once the file has been seeded and every requested block has arrived, in
   any order and any number of times, the commit is accepted and the save is the remote file.
   */
  lemma TransferIsExact(sha: bytes -> string, local: Option<bytes>, remote: bytes, lm: int, rm: int,
                        indices: seq<int>, target: Option<bytes>, ops: seq<Op>)
    requires |remote| <= MaxInt64 && BlocksSeparate(sha, local, remote)
    requires FetchList(LocalEntry(sha, local, lm), EntryOf(sha, remote, rm), indices)
    requires forall op :: op in ops ==> TruthfulOp(local, remote, indices, op)
    requires exists k :: 0 <= k < |ops| && ops[k].SeedOp?
    requires forall i :: i in indices ==> exists k :: 0 <= k < |ops| && ops[k].WriteOp? && ops[k].index == i
    ensures
      var entry := EntryOf(sha, remote, rm);
      var after := Run(sha, entry, Opened(entry, target), ops);
      CommitAccepted(sha, entry, after, true) && CommitStep(sha, entry, after, true).target == Some(remote)
  {
    var entry := EntryOf(sha, remote, rm);
    var after := Run(sha, entry, Opened(entry, target), ops);
    TruthfulRun(sha, local, remote, lm, rm, indices, target, ops);
    hide Run, NeedsFetch, BlocksSeparate, BlockAt, BlockCount, OnTrack, TruthfulOp, Supplies, CommitStep, Opened;
    forall i | 0 <= i < |entry.blocks| ensures i in after.written {
      assert entry.blocks[i] == BlockOf(sha, remote, BlockSizeFor(|remote|), i);
      EveryBlockSupplied(entry, local, remote, indices, ops, i);
      var k :| 0 <= k < |ops| && Supplies(entry, ops[k], i);
      assert i in SuppliedBlocks(entry, ops[k]);
    }
    FullyWrittenIsRemote(after, remote, BlockSizeFor(|remote|));
    OnTrackIsOpen(after, remote, BlockSizeFor(|remote|));
  }

  lemma EveryBlockSupplied(entry: FileEntry, local: Option<bytes>, remote: bytes, indices: seq<int>, ops: seq<Op>,
                           i: nat)
    requires i < |entry.blocks| && entry.blocks[i].index == i
    requires forall op :: op in ops ==> TruthfulOp(local, remote, indices, op)
    requires exists k :: 0 <= k < |ops| && ops[k].SeedOp?
    requires forall i :: i in indices ==> exists k :: 0 <= k < |ops| && ops[k].WriteOp? && ops[k].index == i
    ensures exists k :: 0 <= k < |ops| && Supplies(entry, ops[k], i)
  {
    if i in indices {
      var k :| 0 <= k < |ops| && ops[k].WriteOp? && ops[k].index == i;
      assert Supplies(entry, ops[k], i);
    } else {
      var k :| 0 <= k < |ops| && ops[k].SeedOp?;
      assert ops[k] in ops;
      assert entry.blocks[i] in entry.blocks;
      assert Supplies(entry, ops[k], i);
    }
  }

  // ----- The two callers

  function WriteOps(blocks: seq<BlockSource>): (ops: seq<Op>)
    ensures |ops| == |blocks|
    ensures forall i :: 0 <= i < |ops| ==> ops[i] == WriteOp(blocks[i].index, blocks[i].data)
  {
    seq(|blocks|, i requires 0 <= i < |blocks| => WriteOp(blocks[i].index, blocks[i].data))
  }

  function Indices(blocks: seq<BlockSource>): set<int> {
    set b | b in blocks :: b.index
  }

  /** No step before a commit clears a failure. */
  lemma {:induction false} FailureSticks(sha: bytes -> string, entry: FileEntry, w: Writer, ops: seq<Op>, n: nat)
    requires n <= |ops| && Run(sha, entry, w, ops[..n]).failed
    ensures Run(sha, entry, w, ops).failed
  {
    if n == |ops| {
      assert ops[..n] == ops;
    } else {
      var last := |ops| - 1;
      assert ops[..last][..n] == ops[..n];
      FailureSticks(sha, entry, w, ops[..last], n);
      var before := Run(sha, entry, w, ops[..last]);
      if ops[last].SeedOp? && ops[last].src.Some? {
        SeedKeepsFailure(entry, before, ops[last].src.value, Missing(entry.blocks, ops[last].incoming),
          Zeros(EffectiveBlockSize(entry)));
      }
    }
  }

  lemma {:induction false} SeedKeepsFailure(entry: FileEntry, w: Writer, src: bytes, missing: seq<Block>, buf: bytes)
    requires |buf| == EffectiveBlockSize(entry) && w.failed
    ensures SeedBlocks(entry, w, src, missing, buf).0.failed
    decreases |missing|
  {
    hide WriteRefused, EffectiveBlockSize, Offset, Wrap64;
    if missing != [] {
      var block := missing[0];
      var offset := Wrap64(Offset(EffectiveBlockSize(entry), block.index));
      var n := if block.length > |buf| then |buf| else block.length;
      if offset >= 0 {
        var filled := ReadInto(buf, src, offset, n);
        SeedKeepsFailure(entry, WriteStep(entry, w, block.index, filled[..n]), src, missing[1..], filled);
      }
    }
  }

  /** Marked blocks have offsets that could be written to. */
  ghost predicate Reachable(entry: FileEntry, w: Writer) {
    forall i :: i in w.written ==> Wrap64(Offset(EffectiveBlockSize(entry), i)) >= 0
  }

  /** Seeding that gives up leaves either a recorded failure or a listed block unmarked. */
  lemma {:induction false} SeedGivesUp(entry: FileEntry, w: Writer, src: bytes, missing: seq<Block>, buf: bytes)
    requires |buf| == EffectiveBlockSize(entry) && Reachable(entry, w)
    ensures
      var (after, ok) := SeedBlocks(entry, w, src, missing, buf);
      && Reachable(entry, after)
      && (!ok ==> after.failed || exists b :: b in missing && b.index !in after.written)
    decreases |missing|
  {
    hide EffectiveBlockSize, Offset, Wrap64;
    if missing != [] {
      var block := missing[0];
      var offset := Wrap64(Offset(EffectiveBlockSize(entry), block.index));
      var n := if block.length > |buf| then |buf| else block.length;
      if offset >= 0 {
        var filled := ReadInto(buf, src, offset, n);
        var next := WriteStep(entry, w, block.index, filled[..n]);
        assert Reachable(entry, next);
        SeedGivesUp(entry, next, src, missing[1..], filled);
      }
    }
  }

  lemma {:induction false} WritesMarkOnly(sha: bytes -> string, entry: FileEntry, target: Option<bytes>,
                                        blocks: seq<BlockSource>, n: nat)
    requires n <= |blocks|
    ensures
      var w := Run(sha, entry, Opened(entry, target), WriteOps(blocks)[..n]);
      Reachable(entry, w) && w.written <= Indices(blocks)
  {
    hide EffectiveBlockSize, Offset, Wrap64;
    if n > 0 {
      WritesMarkOnly(sha, entry, target, blocks, n - 1);
      assert WriteOps(blocks)[..n][..n - 1] == WriteOps(blocks)[..n - 1];
      assert blocks[n - 1] in blocks;
    }
  }

  lemma SeedGivesUpMeansNoCommit(sha: bytes -> string, entry: FileEntry, w: Writer, src: Option<bytes>,
                                 incoming: set<int>, diskOk: bool)
    requires Reachable(entry, w) && w.written <= incoming && !SeedStep(entry, w, src, incoming).1
    ensures !CommitAccepted(sha, entry, SeedStep(entry, w, src, incoming).0, diskOk)
  {
    var missing := Missing(entry.blocks, incoming);
    MissingMembers(entry.blocks, incoming);
    var after := SeedStep(entry, w, src, incoming).0;
    var b: Block;
    if src.None? {
      b := missing[0];
    } else {
      SeedGivesUp(entry, w, src.value, missing, Zeros(EffectiveBlockSize(entry)));
      if after.failed {
        return;
      }
      b :| b in missing && b.index !in after.written;
    }
    assert b in missing && b.index !in after.written;
    var i :| 0 <= i < |entry.blocks| && entry.blocks[i] == b;
  }

  method IncomingSet(blocks: seq<BlockSource>) returns (incoming: set<int>)
    ensures incoming == Indices(blocks)
  {
    incoming := {};
    for i := 0 to |blocks|
      invariant incoming == set b | b in blocks[..i] :: b.index
    {
      assert blocks[..i + 1] == blocks[..i] + [blocks[i]];
      incoming := incoming + {blocks[i].index};
    }
    assert blocks[..|blocks|] == blocks;
  }

  /** Write block after block until one is refused. */
  method WriteAll(w: PatchWriter, blocks: seq<BlockSource>) returns (ok: bool, ghost n: nat)
    requires w.Valid()
    modifies w`tmp, w`written, w`failed
    ensures n <= |blocks| && (ok ==> n == |blocks|) && (!ok ==> w.failed)
    ensures w.View() == Run(w.sha, w.entry, old(w.View()), WriteOps(blocks)[..n])
  {
    hide WriteStep, WriteRefused;
    n := 0;
    for i := 0 to |blocks|
      invariant n == i
      invariant w.View() == Run(w.sha, w.entry, old(w.View()), WriteOps(blocks)[..i])
    {
      assert WriteOps(blocks)[..i + 1] == WriteOps(blocks)[..i] + [WriteOp(blocks[i].index, blocks[i].data)];
      RunAppend(w.sha, w.entry, old(w.View()), WriteOps(blocks)[..i], WriteOp(blocks[i].index, blocks[i].data));
      ghost var before := w.View();
      var written := w.WriteBlock(blocks[i].index, blocks[i].data);
      n := i + 1;
      if !written {
        RefusedWriteFails(w.entry, before, blocks[i].index, blocks[i].data);
        return false, n;
      }
    }
    ok := true;
  }

  lemma RefusedWriteFails(entry: FileEntry, w: Writer, index: int, data: bytes)
    requires WriteRefused(entry, w, index, data)
    ensures WriteStep(entry, w, index, data).failed
  {
  }

  lemma WriteKeepsFailure(entry: FileEntry, w: Writer, index: int, data: bytes)
    requires w.failed
    ensures WriteStep(entry, w, index, data).failed
  {
  }

  /** The all-at-once form: write what was fetched, copy the rest, commit. */
  method PatchFile(sha: bytes -> string, file: FileSlot, entry: FileEntry, blocks: seq<BlockSource>, diskOk: bool)
    returns (ok: bool)
    modifies file
    ensures
      var ready := Run(sha, entry, Opened(entry, old(file.content)),
                       WriteOps(blocks) + [SeedOp(old(file.content), Indices(blocks))]);
      && ok == CommitAccepted(sha, entry, ready, diskOk)
      && file.content == if ok then ready.tmp else old(file.content)
  {
    hide Run, WriteStep, SeedStep, Opened, WriteOps, Indices;
    var w := new PatchWriter(sha, file, entry);
    ghost var start := Opened(entry, file.content);
    ghost var ops := WriteOps(blocks) + [SeedOp(file.content, Indices(blocks))];
    RunAppend(sha, entry, start, WriteOps(blocks), SeedOp(file.content, Indices(blocks)));
    var incoming := IncomingSet(blocks);
    var written, n := WriteAll(w, blocks);
    if !written {
      assert ops[..n] == WriteOps(blocks)[..n];
      FailureSticks(sha, entry, start, ops, n);
      w.Abort();
      return false;
    }
    assert WriteOps(blocks)[..|blocks|] == WriteOps(blocks);
    WritesMarkOnly(sha, entry, file.content, blocks, |blocks|);
    ghost var before := w.View();
    var seeded := w.SeedUnchanged(file.content, incoming);
    if !seeded {
      SeedGivesUpMeansNoCommit(sha, entry, before, file.content, incoming, diskOk);
      w.Abort();
      return false;
    }
    ok := w.Commit(diskOk);
  }

  lemma {:induction false} ServedConcat(content: bytes, blockSize: int, a: seq<int>, b: seq<int>)
    requires blockSize > 0
    ensures Served(content, blockSize, a + b) == Served(content, blockSize, a) + Served(content, blockSize, b)
  {
    hide ServedOne;
    if b == [] {
      assert a + b == a;
    } else {
      var last := |b| - 1;
      assert (a + b)[..|a + b| - 1] == a + b[..last];
      ServedConcat(content, blockSize, a, b[..last]);
    }
  }

  /** A peer asked for blocks it has sends those blocks, all of them and nothing else. */
  lemma {:induction false} ServedAreBlocks(content: bytes, blockSize: int, indices: seq<int>)
    requires blockSize > 0 && |content| <= MaxInt64
    requires forall i :: i in indices ==> 0 <= i < BlockCount(|content|, blockSize)
    ensures forall b :: b in Served(content, blockSize, indices) ==>
      b.index in indices && b.index >= 0 && b.data == BlockAt(content, blockSize, b.index)
    ensures forall i :: i in indices ==> exists b :: b in Served(content, blockSize, indices) && b.index == i
  {
    hide ServedOne, BlockAt;
    if indices != [] {
      var last := |indices| - 1;
      assert indices[last] in indices && forall i :: i in indices[..last] ==> i in indices;
      assert forall i :: i in indices ==> i in indices[..last] || i == indices[last];
      ServedAreBlocks(content, blockSize, indices[..last]);
      ServedOneIsBlock(content, blockSize, indices[last]);
      var earlier := Served(content, blockSize, indices[..last]);
      var all := Served(content, blockSize, indices);
      assert all == earlier + [BlockSource(indices[last], BlockAt(content, blockSize, indices[last]))];
      forall i | i in indices ensures exists b :: b in all && b.index == i {
        if i == indices[last] {
          assert all[|all| - 1].index == i;
        } else {
          var b :| b in earlier && b.index == i;
          assert b in all;
        }
      }
    }
  }

  lemma {:induction false} RunConcat(sha: bytes -> string, entry: FileEntry, w: Writer, a: seq<Op>, b: seq<Op>)
    ensures Run(sha, entry, w, a + b) == Run(sha, entry, Run(sha, entry, w, a), b)
  {
    hide Step;
    if b == [] {
      assert a + b == a;
    } else {
      var last := |b| - 1;
      assert (a + b)[..|a + b| - 1] == a + b[..last];
      RunConcat(sha, entry, w, a, b[..last]);
    }
  }

  /** The answers the workers hold and have not written yet. */
  function Pending(flight: seq<seq<BlockSource>>): multiset<BlockSource> {
    if flight == [] then multiset{} else Pending(flight[..|flight| - 1]) + multiset(flight[|flight| - 1])
  }

  lemma {:induction false} PendingConcat(a: seq<seq<BlockSource>>, b: seq<seq<BlockSource>>)
    ensures Pending(a + b) == Pending(a) + Pending(b)
  {
    if b == [] {
      assert a + b == a;
    } else {
      assert (a + b)[..|a + b| - 1] == a + b[..|b| - 1];
      PendingConcat(a, b[..|b| - 1]);
    }
  }

  lemma PendingSplit(before: seq<seq<BlockSource>>, answer: seq<BlockSource>, after: seq<seq<BlockSource>>)
    ensures Pending(before + ([answer] + after)) == Pending(before + after) + multiset(answer)
  {
    hide Pending;
    PendingConcat(before, after);
    PendingConcat(before, [answer] + after);
    PendingConcat([answer], after);
    PendingOne(answer);
  }

  lemma PendingOne(answer: seq<BlockSource>)
    ensures Pending([answer]) == multiset(answer)
  {
    assert [answer][..0] == [];
  }

  /** Messages the workers have still to deal with, each worker counting one for going idle. */
  function WorkLeft(flight: seq<seq<BlockSource>>): nat {
    if flight == [] then 0 else WorkLeft(flight[..|flight| - 1]) + |flight[|flight| - 1]| + 1
  }

  lemma {:induction false} WorkLeftConcat(a: seq<seq<BlockSource>>, b: seq<seq<BlockSource>>)
    ensures WorkLeft(a + b) == WorkLeft(a) + WorkLeft(b)
  {
    if b == [] {
      assert a + b == a;
    } else {
      assert (a + b)[..|a + b| - 1] == a + b[..|b| - 1];
      WorkLeftConcat(a, b[..|b| - 1]);
    }
  }

  lemma WorkLeftSplit(before: seq<seq<BlockSource>>, answer: seq<BlockSource>, after: seq<seq<BlockSource>>)
    ensures WorkLeft(before + ([answer] + after)) == WorkLeft(before + after) + |answer| + 1
  {
    hide WorkLeft;
    WorkLeftConcat(before, after);
    WorkLeftConcat(before, [answer] + after);
    WorkLeftConcat([answer], after);
    WorkLeftOne(answer);
  }

  lemma WorkLeftOne(answer: seq<BlockSource>)
    ensures WorkLeft([answer]) == |answer| + 1
  {
    assert [answer][..0] == [];
  }

  /** Putting answers back at their place. */
  lemma At(flight: seq<seq<BlockSource>>, j: nat, rest: seq<BlockSource>)
    requires j < |flight|
    ensures flight == flight[..j] + ([flight[j]] + flight[j + 1..])
    ensures flight[j := rest] == flight[..j] + ([rest] + flight[j + 1..])
  {
  }

  /** Everything asked for has been written, is in a worker's hands, or was lost to a failure. */
  ghost predicate Accounted(sent: seq<BlockSource>, flight: seq<seq<BlockSource>>, lost: multiset<BlockSource>,
                            asked: multiset<BlockSource>) {
    multiset(sent) + Pending(flight) + lost == asked
  }

  lemma NothingAsked()
    ensures Accounted([], [], multiset{}, multiset{})
  {
  }

  lemma AnswerArrives(sent: seq<BlockSource>, flight: seq<seq<BlockSource>>, lost: multiset<BlockSource>,
                      asked: multiset<BlockSource>,
                      answer: seq<BlockSource>)
    requires Accounted(sent, flight, lost, asked)
    ensures Accounted(sent, flight + [answer], lost, asked + multiset(answer))
    ensures Accounted(sent, flight, lost + multiset(answer), asked + multiset(answer))
  {
    hide Pending;
    PendingConcat(flight, [answer]);
    PendingOne(answer);
  }

  function Without(flight: seq<seq<BlockSource>>, j: nat): seq<seq<BlockSource>>
    requires j < |flight|
  {
    flight[..j] + flight[j + 1..]
  }

  /** A worker with nothing left to write goes idle. */
  lemma GoesIdle(sent: seq<BlockSource>, flight: seq<seq<BlockSource>>, lost: multiset<BlockSource>,
                 asked: multiset<BlockSource>, j: nat)
    requires Accounted(sent, flight, lost, asked) && j < |flight| && flight[j] == []
    ensures Accounted(sent, Without(flight, j), lost, asked)
  {
    hide Pending;
    At(flight, j, []);
    PendingSplit(flight[..j], flight[j], flight[j + 1..]);
  }

  /** A worker writes the next block of its answer. */
  lemma WritesOne(sent: seq<BlockSource>, flight: seq<seq<BlockSource>>, lost: multiset<BlockSource>,
                  asked: multiset<BlockSource>, j: nat)
    requires Accounted(sent, flight, lost, asked) && j < |flight| && flight[j] != []
    ensures Accounted(sent + [flight[j][0]], flight[j := flight[j][1..]], lost, asked)
  {
    hide Pending;
    At(flight, j, flight[j][1..]);
    PendingSplit(flight[..j], flight[j], flight[j + 1..]);
    PendingSplit(flight[..j], flight[j][1..], flight[j + 1..]);
    assert flight[j] == [flight[j][0]] + flight[j][1..];
  }

  /** A worker whose write was refused gives up the rest. */
  lemma GivesUp(sent: seq<BlockSource>, flight: seq<seq<BlockSource>>, lost: multiset<BlockSource>,
                asked: multiset<BlockSource>, j: nat)
    requires Accounted(sent, flight, lost, asked) && j < |flight| && flight[j] != []
    ensures Accounted(sent + [flight[j][0]], Without(flight, j), lost + multiset(flight[j][1..]), asked)
  {
    hide Pending;
    At(flight, j, []);
    PendingSplit(flight[..j], flight[j], flight[j + 1..]);
    assert flight[j] == [flight[j][0]] + flight[j][1..];
  }

  lemma LessWork(flight: seq<seq<BlockSource>>, j: nat)
    requires j < |flight|
    ensures |Without(flight, j)| < |flight| && WorkLeft(Without(flight, j)) < WorkLeft(flight)
    ensures flight[j] != [] ==> WorkLeft(flight[j := flight[j][1..]]) < WorkLeft(flight)
  {
    var rest := if flight[j] == [] then [] else flight[j][1..];
    At(flight, j, rest);
    hide WorkLeft;
    WorkLeftSplit(flight[..j], flight[j], flight[j + 1..]);
    WorkLeftSplit(flight[..j], rest, flight[j + 1..]);
  }

  /**
   A pool of workers, each taking the next batch, asking for it and writing the answer block by block,
   in whatever interleaving. After the first failure no more batches are asked for, but workers that
   have an answer go on writing it. `sent` is what got as far as a write, in that order.
   */
  method FetchFileBlocks(w: PatchWriter, remote: bytes, indices: seq<int>, isWan: bool, linkOk: bool)
    returns (ok: bool, ghost sent: seq<BlockSource>)
    requires w.Valid()
    modifies w`tmp, w`written, w`failed
    ensures multiset(sent) <= multiset(Served(remote, w.blockSize, indices))
    ensures w.View() == Run(w.sha, w.entry, old(w.View()), WriteOps(sent))
    ensures ok ==> multiset(sent) == multiset(Served(remote, w.blockSize, indices))
    ensures ok || w.failed || !linkOk || NegativeOffset(w.blockSize, indices)
  {
    assert w.blockSize > 0 && w.blockSize == EffectiveBlockSize(w.entry);
    hide *;
    var batches := BatchIndices(indices, w.entry.blockSize, isWan);
    sent := [];
    RunNothing(w.sha, w.entry, w.View());
    ServedNothing(remote, w.blockSize);
    var flight: seq<seq<BlockSource>> := [];
    ghost var lost: multiset<BlockSource> := multiset{};
    ghost var start := w.View();
    var k := 0;
    ok := true;
    assert batches[..0] == [];
    NothingAsked();
    while (ok && k < |batches|) || flight != []
      invariant w.Valid()
      invariant 0 <= k <= |batches| && |flight| <= ConcurrencyFor(isWan)
      invariant Accounted(sent, flight, lost, multiset(Served(remote, w.blockSize, Concat(batches[..k]))))
      invariant ok ==> lost == multiset{}
      invariant w.View() == Run(w.sha, w.entry, start, WriteOps(sent))
      invariant ok || w.failed || !linkOk || NegativeOffset(w.blockSize, indices)
      decreases |batches| - k, WorkLeft(flight)
    {
      ghost var asked := multiset(Served(remote, w.blockSize, Concat(batches[..k])));
      var takesBatch: bool := *;
      if ok && k < |batches| && |flight| < ConcurrencyFor(isWan) && (takesBatch || flight == []) {
        AnswerArrives(sent, flight, lost, asked, Served(remote, w.blockSize, batches[k]));
        ServedStep(remote, w.blockSize, batches, k);
        var answer;
        ok, answer := FetchBatch(w, remote, indices, batches, k, linkOk);
        if ok {
          flight := flight + [answer];
        } else {
          lost := lost + multiset(Served(remote, w.blockSize, batches[k]));
        }
        k := k + 1;
      } else {
        HasWorker(flight, isWan);
        var j :| 0 <= j < |flight|;
        var written;
        written, flight, sent, lost := WorkerTurn(w, start, flight, j, sent, lost, asked);
        ok := ok && written;
      }
    }
    ServedPart(remote, w.blockSize, indices, batches, k);
    AllAccounted(sent, lost, multiset(Served(remote, w.blockSize, Concat(batches[..k]))));
  }

  /** Worker j writes one block, or goes idle if it has none left, or stops if the write is refused. */
  method WorkerTurn(w: PatchWriter, ghost start: Writer, flight: seq<seq<BlockSource>>, j: nat,
                    ghost sent: seq<BlockSource>, ghost lost: multiset<BlockSource>, ghost asked: multiset<BlockSource>)
    returns (ok: bool, after: seq<seq<BlockSource>>, ghost sent': seq<BlockSource>, ghost lost': multiset<BlockSource>)
    requires w.Valid() && w.View() == Run(w.sha, w.entry, start, WriteOps(sent))
    requires Accounted(sent, flight, lost, asked) && j < |flight|
    modifies w`tmp, w`written, w`failed
    ensures w.Valid() && w.View() == Run(w.sha, w.entry, start, WriteOps(sent'))
    ensures Accounted(sent', after, lost', asked) && WorkLeft(after) < WorkLeft(flight) && |after| <= |flight|
    ensures !ok || old(w.failed) ==> w.failed
    ensures ok ==> lost' == lost
  {
    hide Accounted, Run, WorkLeft, WriteOps;
    LessWork(flight, j);
    ok, sent', lost' := true, sent, lost;
    if flight[j] == [] {
      GoesIdle(sent, flight, lost, asked, j);
      after := Without(flight, j);
      return;
    }
    ok := WriteOne(w, start, sent, flight[j][0]);
    sent' := sent + [flight[j][0]];
    if ok {
      WritesOne(sent, flight, lost, asked, j);
      after := flight[j := flight[j][1..]];
    } else {
      GivesUp(sent, flight, lost, asked, j);
      lost' := lost + multiset(flight[j][1..]);
      after := Without(flight, j);
    }
  }

  lemma AllAccounted(sent: seq<BlockSource>, lost: multiset<BlockSource>, asked: multiset<BlockSource>)
    requires Accounted(sent, [], lost, asked)
    ensures multiset(sent) <= asked && (lost == multiset{} ==> multiset(sent) == asked)
  {
  }

  ghost predicate NegativeOffset(blockSize: int, indices: seq<int>) {
    exists i :: i in indices && Wrap64(Offset(blockSize, i)) < 0
  }

  lemma HasWorker(flight: seq<seq<BlockSource>>, isWan: bool)
    ensures flight != [] || 0 < ConcurrencyFor(isWan)
  {
  }

  method WriteOne(w: PatchWriter, ghost start: Writer, ghost sent: seq<BlockSource>, b: BlockSource) returns (ok: bool)
    requires w.Valid() && w.View() == Run(w.sha, w.entry, start, WriteOps(sent))
    modifies w`tmp, w`written, w`failed
    ensures w.Valid() && w.View() == Run(w.sha, w.entry, start, WriteOps(sent + [b]))
    ensures !ok || old(w.failed) ==> w.failed
  {
    hide Run, WriteStep, WriteRefused;
    RunOneWrite(w.sha, w.entry, start, sent, b);
    ghost var before := w.View();
    if before.failed {
      WriteKeepsFailure(w.entry, before, b.index, b.data);
    }
    ok := w.WriteBlock(b.index, b.data);
    if !ok {
      RefusedWriteFails(w.entry, before, b.index, b.data);
    }
  }

  /** One request to the peer; the link may fail it. */
  method FetchBatch(w: PatchWriter, remote: bytes, indices: seq<int>, batches: seq<seq<int>>, k: nat, linkOk: bool)
    returns (answered: bool, answer: seq<BlockSource>)
    requires k < |batches| && Concat(batches) == indices && w.Valid()
    ensures answered ==> answer == Served(remote, w.blockSize, batches[k])
    ensures answered || !linkOk || NegativeOffset(w.blockSize, indices)
  {
    hide Offset, Served;
    var drops: bool := *;
    if drops && !linkOk {
      return false, [];
    }
    var blocks := ReadBlocks(remote, batches[k], w.entry.blockSize);
    if blocks.Error? {
      var i :| i in batches[k] && Wrap64(Offset(w.blockSize, i)) < 0;
      ConcatSplit(batches, k);
      assert i in Concat(batches[..k]) + batches[k] + Concat(batches[k + 1..]);
      return false, [];
    }
    return true, blocks.value;
  }

  lemma RunOneWrite(sha: bytes -> string, entry: FileEntry, w: Writer, sent: seq<BlockSource>, b: BlockSource)
    ensures Run(sha, entry, w, WriteOps(sent + [b])) ==
        WriteStep(entry, Run(sha, entry, w, WriteOps(sent)), b.index, b.data)
  {
    hide WriteStep;
    assert WriteOps(sent + [b]) == WriteOps(sent) + [WriteOp(b.index, b.data)];
    RunAppend(sha, entry, w, WriteOps(sent), WriteOp(b.index, b.data));
  }

  lemma ServedStep(remote: bytes, blockSize: int, batches: seq<seq<int>>, k: nat)
    requires blockSize > 0 && k < |batches|
    ensures multiset(Served(remote, blockSize, Concat(batches[..k + 1]))) ==
            multiset(Served(remote, blockSize, Concat(batches[..k]))) + multiset(Served(remote, blockSize, batches[k]))
  {
    hide Served;
    ConcatSplit(batches, k);
    ServedConcat(remote, blockSize, Concat(batches[..k]), batches[k]);
  }

  lemma ServedPart(remote: bytes, blockSize: int, indices: seq<int>, batches: seq<seq<int>>, k: nat)
    requires blockSize > 0 && k <= |batches| && Concat(batches) == indices
    ensures multiset(Served(remote, blockSize, Concat(batches[..k]))) <= multiset(Served(remote, blockSize, indices))
    ensures k == |batches| ==> Concat(batches[..k]) == indices
  {
    hide Served;
    if k < |batches| {
      ConcatSplit(batches, k);
      var head, tail := Concat(batches[..k]), batches[k] + Concat(batches[k + 1..]);
      assert indices == head + tail;
      ServedConcat(remote, blockSize, head, tail);
    } else {
      assert batches[..k] == batches;
    }
  }

  lemma RunNothing(sha: bytes -> string, entry: FileEntry, w: Writer)
    ensures Run(sha, entry, w, WriteOps([])) == w
  {
  }

  lemma ServedNothing(content: bytes, blockSize: int)
    requires blockSize > 0
    ensures Served(content, blockSize, Concat([])) == []
  {
  }

  lemma {:induction false} ConcatSplit(parts: seq<seq<int>>, k: nat)
    requires k < |parts|
    ensures Concat(parts[..k + 1]) == Concat(parts[..k]) + parts[k]
    ensures Concat(parts) == Concat(parts[..k]) + parts[k] + Concat(parts[k + 1..])
    decreases |parts|
  {
    assert parts[..k + 1][..k] == parts[..k];
    var last := |parts| - 1;
    if k == last {
      assert parts[..k + 1] == parts && parts[k + 1..] == [];
    } else {
      ConcatSplit(parts[..last], k);
      assert parts[..last][..k] == parts[..k] && parts[..last][k + 1..] == parts[k + 1..last];
      assert parts[k + 1..][..|parts[k + 1..]| - 1] == parts[k + 1..last];
    }
  }

  method IndexSet(indices: seq<int>) returns (s: set<int>)
    ensures s == set i | i in indices
  {
    s := {};
    for k := 0 to |indices|
      invariant s == set i | i in indices[..k]
    {
      assert indices[..k + 1] == indices[..k] + [indices[k]];
      s := s + {indices[k]};
    }
    assert indices[..|indices|] == indices;
  }

  /**
   One whole pull: hash both files, fetch what differs, rebuild, verify, replace. It either leaves
   the save alone or leaves a file with the remote's hash; with a working link and disk, and hashes
   that tell the blocks apart, it always succeeds and the save is the remote file.
   */
  method PullFile(sha: bytes -> string, file: FileSlot, remote: bytes, lm: int, rm: int, isWan: bool, linkOk: bool,
                  diskOk: bool)
    returns (ok: bool)
    requires |remote| <= MaxInt64
    modifies file
    ensures ok ==> file.content.Some? && sha(file.content.value) == sha(remote)
    ensures !ok ==> file.content == old(file.content)
    ensures linkOk && diskOk && BlocksSeparate(sha, old(file.content), remote) ==> ok && file.content == Some(remote)
  {
    var remoteEntry := HashFile(sha, remote, rm);
    var localEntry := None;
    if file.content.Some? {
      var e := HashFile(sha, file.content.value, lm);
      localEntry := Some(e);
    }
    var indices := DifferentBlockIndices(localEntry, remoteEntry);
    ghost var local := file.content;
    assert FetchList(LocalEntry(sha, local, lm), EntryOf(sha, remote, rm), indices);

    var w := new PatchWriter(sha, file, remoteEntry);
    var incoming := IndexSet(indices);
    var seeded := w.SeedUnchanged(file.content, incoming);
    ghost var start := Opened(remoteEntry, local);
    ghost var seedOp := SeedOp(local, incoming);
    RunAppend(sha, remoteEntry, start, [], seedOp);
    assert [] + [seedOp] == [seedOp];
    if !seeded {
      if BlocksSeparate(sha, local, remote) {
        TruthfulStart(sha, remote, rm, local);
        TruthfulSeedStep(sha, local, remote, lm, rm, indices, start, incoming);
      }
      w.Abort();
      return false;
    }
    ghost var sent;
    var fetched;
    fetched, sent := FetchFileBlocks(w, remote, indices, isWan, linkOk);
    ghost var ops := [seedOp] + WriteOps(sent);
    RunConcat(sha, remoteEntry, start, [seedOp], WriteOps(sent));
    if BlocksSeparate(sha, local, remote) {
      SameMembers(sent, Served(remote, BlockSizeFor(|remote|), indices), fetched);
      PullIsTruthful(sha, local, remote, lm, rm, indices, sent, fetched);
    }
    if !fetched {
      w.Abort();
      return false;
    }
    ok := w.Commit(diskOk);
  }

  lemma SameMembers(sent: seq<BlockSource>, all: seq<BlockSource>, complete: bool)
    requires multiset(sent) <= multiset(all) && (complete ==> multiset(sent) == multiset(all))
    ensures forall b :: b in sent ==> b in all
    ensures complete ==> forall b :: b in all ==> b in sent
  {
    forall b | b in sent ensures b in all {
      assert b in multiset(sent) && b in multiset(all);
    }
    if complete {
      forall b | b in all ensures b in sent {
        assert b in multiset(all) && b in multiset(sent);
      }
    }
  }

  lemma TruthfulStart(sha: bytes -> string, remote: bytes, rm: int, target: Option<bytes>)
    ensures OnTrack(Opened(EntryOf(sha, remote, rm), target), remote, BlockSizeFor(|remote|))
  {
    EntryLength(sha, remote, rm);
  }

  /** The steps a pull makes are truthful ones, so nothing is refused, and once complete it commits. */
  lemma PullIsTruthful(sha: bytes -> string, local: Option<bytes>, remote: bytes, lm: int, rm: int,
                       indices: seq<int>, sent: seq<BlockSource>, complete: bool)
    requires |remote| <= MaxInt64 && BlocksSeparate(sha, local, remote)
    requires FetchList(LocalEntry(sha, local, lm), EntryOf(sha, remote, rm), indices)
    requires forall b :: b in sent ==> b in Served(remote, BlockSizeFor(|remote|), indices)
    requires complete ==> forall b :: b in Served(remote, BlockSizeFor(|remote|), indices) ==> b in sent
    ensures
      var entry := EntryOf(sha, remote, rm);
      var ops := [SeedOp(local, set i | i in indices)] + WriteOps(sent);
      var after := Run(sha, entry, Opened(entry, local), ops);
      && !after.failed
      && (complete ==> CommitAccepted(sha, entry, after, true) && after.tmp == Some(remote))
    ensures forall i :: i in indices ==> Wrap64(Offset(BlockSizeFor(|remote|), i)) >= 0
  {
    var entry, blockSize := EntryOf(sha, remote, rm), BlockSizeFor(|remote|);
    var ops := [SeedOp(local, set i | i in indices)] + WriteOps(sent);
    FetchListInRange(sha, local, remote, lm, rm, indices);
    hide *;
    ServedAreBlocks(remote, blockSize, indices);
    PullOpsAreTruthful(local, remote, indices, sent);
    TruthfulRun(sha, local, remote, lm, rm, indices, local, ops);
    OnTrackIsOpen(Run(sha, entry, Opened(entry, local), ops), remote, blockSize);
    if complete {
      PullOpsCover(local, remote, indices, sent);
      TransferIsExact(sha, local, remote, lm, rm, indices, local, ops);
      CommittedContent(sha, entry, Run(sha, entry, Opened(entry, local), ops), remote);
    }
  }

  lemma FetchListInRange(sha: bytes -> string, local: Option<bytes>, remote: bytes, lm: int, rm: int, indices: seq<int>)
    requires |remote| <= MaxInt64
    requires FetchList(LocalEntry(sha, local, lm), EntryOf(sha, remote, rm), indices)
    ensures forall i :: i in indices ==>
      0 <= i < BlockCount(|remote|, BlockSizeFor(|remote|)) && Wrap64(Offset(BlockSizeFor(|remote|), i)) >= 0
  {
    forall i | i in indices
      ensures 0 <= i < BlockCount(|remote|, BlockSizeFor(|remote|)) && Wrap64(Offset(BlockSizeFor(|remote|), i)) >= 0
    {
      assert |EntryOf(sha, remote, rm).blocks| == BlockCount(|remote|, BlockSizeFor(|remote|));
      OffsetInRange(|remote|, BlockSizeFor(|remote|), i);
    }
  }

  lemma PullOpsAreTruthful(local: Option<bytes>, remote: bytes, indices: seq<int>, sent: seq<BlockSource>)
    requires forall b :: b in sent ==> b in Served(remote, BlockSizeFor(|remote|), indices)
    requires forall b :: b in Served(remote, BlockSizeFor(|remote|), indices) ==>
      b.index in indices && b.index >= 0 && b.data == BlockAt(remote, BlockSizeFor(|remote|), b.index)
    ensures
      var ops := [SeedOp(local, set i | i in indices)] + WriteOps(sent);
      forall op :: op in ops ==> TruthfulOp(local, remote, indices, op)
  {
    hide Served, BlockAt;
    var ops := [SeedOp(local, set i | i in indices)] + WriteOps(sent);
    forall k | 0 <= k < |ops| ensures TruthfulOp(local, remote, indices, ops[k]) {
      if k > 0 {
        assert sent[k - 1] in sent;
        assert ops[k] == WriteOp(sent[k - 1].index, sent[k - 1].data);
      }
    }
  }

  lemma PullOpsCover(local: Option<bytes>, remote: bytes, indices: seq<int>, sent: seq<BlockSource>)
    requires forall i :: i in indices ==> exists b :: b in sent && b.index == i
    ensures
      var ops := [SeedOp(local, set i | i in indices)] + WriteOps(sent);
      && (exists k :: 0 <= k < |ops| && ops[k].SeedOp?)
      && forall i :: i in indices ==> exists k :: 0 <= k < |ops| && ops[k].WriteOp? && ops[k].index == i
  {
    var ops := [SeedOp(local, set i | i in indices)] + WriteOps(sent);
    assert ops[0].SeedOp?;
    forall i | i in indices ensures exists k :: 0 <= k < |ops| && ops[k].WriteOp? && ops[k].index == i {
      var b :| b in sent && b.index == i;
      var k :| 0 <= k < |sent| && sent[k] == b;
      assert ops[k + 1] == WriteOp(b.index, b.data);
    }
  }

  lemma CommittedContent(sha: bytes -> string, entry: FileEntry, w: Writer, content: bytes)
    requires CommitAccepted(sha, entry, w, true) && CommitStep(sha, entry, w, true).target == Some(content)
    ensures w.tmp == Some(content)
  {
  }
}
