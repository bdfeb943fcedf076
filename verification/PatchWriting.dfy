/**
 Rebuilding a file from blocks that arrive in any order (internal/delta/patchstream.go), and the
 all-at-once form of it (internal/delta/patch.go). The class has the code's fields and steps; the
 functions beside it say what each step does to them, and the lemmas what every sequence of steps
 does to the save file.
 */
module PatchWriting {
  import opened Basics
  import opened Manifests
  import opened Blocks

  /** A file path: its content, or nothing there. */
  class FileSlot {
    var content: Option<bytes>

    constructor (content: Option<bytes>)
      ensures this.content == content
    {
      this.content := content;
    }
  }

  /** The state of one reconstruction, with the file it will replace. */
  datatype Writer = Writer(target: Option<bytes>, tmp: Option<bytes>, written: set<int>, failed: bool, closed: bool)

  function EffectiveBlockSize(entry: FileEntry): (size: int)
    ensures size > 0
  {
    if entry.blockSize <= 0 then DefaultBlockSize else entry.blockSize
  }

  function TotalLength(blocks: seq<Block>): nat {
    if blocks == [] then 0 else TotalLength(blocks[..|blocks| - 1]) + blocks[|blocks| - 1].length
  }

  function Zeros(n: nat): (z: bytes)
    ensures |z| == n
  {
    seq(n, i => 0 as byte)
  }

  function Opened(entry: FileEntry, target: Option<bytes>): Writer {
    Writer(target, Some(Zeros(TotalLength(entry.blocks))), {}, false, false)
  }

  function Overwrite(file: bytes, offset: nat, data: bytes): bytes
    requires offset + |data| <= |file|
  {
    file[..offset] + data + file[offset + |data|..]
  }

  // ----- What each step does

  /** The offset is 64-bit; a write that would end past 2^63 is refused by the file system. */
  predicate WriteRefused(entry: FileEntry, w: Writer, index: int, data: bytes) {
    var offset := Wrap64(Offset(EffectiveBlockSize(entry), index));
    || Wrap64(offset + |data|) > TotalLength(entry.blocks)
    || offset < 0 || offset + |data| > MaxInt64
    || (w.closed && data != [])
  }

  function WriteStep(entry: FileEntry, w: Writer, index: int, data: bytes): Writer {
    if WriteRefused(entry, w, index, data) then
      w.(failed := true)
    else
      var offset := Wrap64(Offset(EffectiveBlockSize(entry), index));
      var marked := w.(written := w.written + {index});
      if w.tmp.Some? && offset + |data| <= |w.tmp.value|
      then marked.(tmp := Some(Overwrite(w.tmp.value, offset, data)))
      else marked
  }

  /** A short read leaves the rest of the buffer as the previous read left it. */
  function ReadInto(buf: bytes, src: bytes, offset: nat, n: nat): (r: bytes)
    requires n <= |buf|
    ensures |r| == |buf|
  {
    var got := if offset >= |src| then 0 else if offset + n <= |src| then n else |src| - offset;
    (if got == 0 then [] else src[offset..offset + got]) + buf[got..]
  }

  function SeedBlocks(entry: FileEntry, w: Writer, src: bytes, missing: seq<Block>, buf: bytes): (Writer, bool)
    requires |buf| == EffectiveBlockSize(entry)
    decreases |missing|
  {
    if missing == [] then (w, true)
    else
      var block := missing[0];
      var offset := Wrap64(Offset(EffectiveBlockSize(entry), block.index));
      var n := if block.length > |buf| then |buf| else block.length;
      if offset < 0 then (w, false)
      else
        var filled := ReadInto(buf, src, offset, n);
        var next := WriteStep(entry, w, block.index, filled[..n]);
        if WriteRefused(entry, w, block.index, filled[..n]) then (next, false)
        else SeedBlocks(entry, next, src, missing[1..], filled)
  }

  function Missing(blocks: seq<Block>, incoming: set<int>): seq<Block> {
    if blocks == [] then []
    else
      var last := blocks[|blocks| - 1];
      Missing(blocks[..|blocks| - 1], incoming) + (if last.index in incoming then [] else [last])
  }

  function SeedStep(entry: FileEntry, w: Writer, src: Option<bytes>, incoming: set<int>): (Writer, bool) {
    var missing := Missing(entry.blocks, incoming);
    if missing == [] then (w, true)
    else if src.None? then (w, false)
    else SeedBlocks(entry, w, src.value, missing, Zeros(EffectiveBlockSize(entry)))
  }

  function AbortStep(w: Writer): Writer {
    w.(tmp := None, closed := true)
  }

  predicate AllWritten(entry: FileEntry, w: Writer) {
    forall i :: 0 <= i < |entry.blocks| ==> entry.blocks[i].index in w.written
  }

  predicate CommitAccepted(sha: bytes -> string, entry: FileEntry, w: Writer, diskOk: bool) {
    && !w.failed && AllWritten(entry, w) && !w.closed && diskOk
    && w.tmp.Some? && sha(w.tmp.value) == entry.hash
  }

  /** diskOk stands for the flush, the close, the re-read and the rename all succeeding. */
  function CommitStep(sha: bytes -> string, entry: FileEntry, w: Writer, diskOk: bool): Writer {
    if CommitAccepted(sha, entry, w, diskOk) then AbortStep(w).(target := w.tmp) else AbortStep(w)
  }

  // ----- The class

  class PatchWriter {
    const sha: bytes -> string
    const entry: FileEntry
    const file: FileSlot
    const blockSize: int
    const size: nat
    var tmp: Option<bytes>
    var written: set<int>
    var failed: bool
    var closed: bool

    constructor (sha: bytes -> string, file: FileSlot, entry: FileEntry)
      ensures this.sha == sha && this.file == file && this.entry == entry && Valid()
      ensures View() == Opened(entry, file.content)
    {
      this.sha, this.file, this.entry := sha, file, entry;
      var blockSize := entry.blockSize;
      if blockSize <= 0 {
        blockSize := DefaultBlockSize;
      }
      var size: nat := 0;
      for i := 0 to |entry.blocks|
        invariant size == TotalLength(entry.blocks[..i])
      {
        assert entry.blocks[..i + 1][..i] == entry.blocks[..i];
        size := size + entry.blocks[i].length;
      }
      assert entry.blocks[..|entry.blocks|] == entry.blocks;
      this.blockSize, this.size := blockSize, size;
      tmp := Some(Zeros(size));
      written, failed, closed := {}, false, false;
    }

    ghost predicate Valid() {
      blockSize == EffectiveBlockSize(entry) && size == TotalLength(entry.blocks)
    }

    ghost function View(): Writer
      reads this, file
    {
      Writer(file.content, tmp, written, failed, closed)
    }

    method WriteBlock(index: int, data: bytes) returns (ok: bool)
      requires Valid()
      modifies this`tmp, this`written, this`failed
      ensures ok == !WriteRefused(entry, old(View()), index, data)
      ensures View() == WriteStep(entry, old(View()), index, data)
    {
      var offset := Wrap64(Offset(blockSize, index));
      var end := Wrap64(offset + |data|);
      if end > size {
        failed := true;
        return false;
      }
      if offset < 0 || offset + |data| > MaxInt64 || (closed && data != []) {
        failed := true;
        return false;
      }
      if tmp.Some? && offset + |data| <= |tmp.value| {
        tmp := Some(tmp.value[..offset] + data + tmp.value[offset + |data|..]);
      }
      written := written + {index};
      ok := true;
    }

    method SeedUnchanged(src: Option<bytes>, incoming: set<int>) returns (ok: bool)
      requires Valid()
      modifies this`tmp, this`written, this`failed
      ensures (View(), ok) == SeedStep(entry, old(View()), src, incoming)
    {
      var missing: seq<Block> := [];
      for i := 0 to |entry.blocks|
        invariant missing == Missing(entry.blocks[..i], incoming)
        invariant View() == old(View())
      {
        assert entry.blocks[..i + 1][..i] == entry.blocks[..i];
        if entry.blocks[i].index !in incoming {
          missing := missing + [entry.blocks[i]];
        }
      }
      assert entry.blocks[..|entry.blocks|] == entry.blocks;
      if |missing| == 0 {
        return true;
      }
      if src.None? {
        return false;
      }
      ok := CopyBlocks(src.value, missing);
    }

    method CopyBlocks(src: bytes, missing: seq<Block>) returns (ok: bool)
      requires Valid()
      modifies this`tmp, this`written, this`failed
      ensures (View(), ok) == SeedBlocks(entry, old(View()), src, missing, Zeros(EffectiveBlockSize(entry)))
    {
      var buf := Zeros(blockSize);
      var i := 0;
      while i < |missing|
        invariant 0 <= i <= |missing| && |buf| == blockSize
        invariant SeedBlocks(entry, View(), src, missing[i..], buf)
               == SeedBlocks(entry, old(View()), src, missing, Zeros(EffectiveBlockSize(entry)))
      {
        var block := missing[i];
        assert missing[i..][0] == block && missing[i..][1..] == missing[i + 1..];
        var offset := Wrap64(Offset(blockSize, block.index));
        var n := block.length;
        if n > blockSize {
          n := blockSize;
        }
        if offset < 0 {
          return false;
        }
        buf := ReadInto(buf, src, offset, n);
        ok := WriteBlock(block.index, buf[..n]);
        if !ok {
          return false;
        }
        i := i + 1;
      }
      ok := true;
    }

    method Commit(diskOk: bool) returns (ok: bool)
      requires Valid()
      modifies this`tmp, this`closed, file
      ensures ok == CommitAccepted(sha, entry, old(View()), diskOk)
      ensures View() == CommitStep(sha, entry, old(View()), diskOk)
    {
      if failed {
        Abort();
        return false;
      }
      var missing := 0;
      for i := 0 to |entry.blocks|
        invariant 0 <= missing
        invariant missing == 0 <==> forall k :: 0 <= k < i ==> entry.blocks[k].index in written
        invariant View() == old(View())
      {
        if entry.blocks[i].index !in written {
          missing := missing + 1;
        }
      }
      if missing > 0 {
        Abort();
        return false;
      }
      if closed || !diskOk || tmp.None? {
        Abort();
        return false;
      }
      if sha(tmp.value) != entry.hash {
        Abort();
        return false;
      }
      closed := true;
      file.content := tmp;
      tmp := None;
      ok := true;
    }

    method Abort()
      modifies this`tmp, this`closed
      ensures View() == AbortStep(old(View()))
    {
      closed := true;
      tmp := None;
    }
  }
}
