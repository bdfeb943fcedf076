/**
 The number that ties two packages together: what a syncing peer can have in flight over the relay
 (internal/p2p/syncengine/decision.go) against what the relay holds for one client
 (relay/server.go). Blocks travel in base64, section 4 of RFC 4648.
 */
module TransferBudget {
  import opened Blocks
  import Relay

  /** Four characters for every three bytes begun. */
  function Base64Size(n: nat): nat {
    4 * ((n + 2) / 3)
  }

  /** Encoded size of a batch whose blocks have the given lengths. */
  function EncodedSize(lengths: seq<nat>): nat {
    if lengths == [] then 0 else EncodedSize(lengths[..|lengths| - 1]) + Base64Size(lengths[|lengths| - 1])
  }

  function TotalEncoded(batches: seq<seq<nat>>): nat {
    if batches == [] then 0 else TotalEncoded(batches[..|batches| - 1]) + EncodedSize(batches[|batches| - 1])
  }

  function EffectiveSize(blockSize: int): nat {
    if blockSize <= 0 then 64 * 1024 else blockSize
  }

  /** A batch as BatchIndices cuts it for the WAN, answered with blocks no longer than the block size. */
  ghost predicate WanBatch(lengths: seq<nat>, blockSize: int) {
    && |lengths| <= BatchSize(blockSize, true)
    && forall i :: 0 <= i < |lengths| ==> lengths[i] <= EffectiveSize(blockSize)
  }

  lemma {:induction false} EncodedSizeBound(lengths: seq<nat>, size: nat)
    requires forall i :: 0 <= i < |lengths| ==> lengths[i] <= size
    ensures EncodedSize(lengths) <= |lengths| * Base64Size(size)
  {
    if lengths != [] {
      EncodedSizeBound(lengths[..|lengths| - 1], size);
      assert Base64Size(lengths[|lengths| - 1]) <= Base64Size(size);
      assert |lengths| * Base64Size(size) == (|lengths| - 1) * Base64Size(size) + Base64Size(size);
    }
  }

  lemma {:induction false} TotalEncodedBound(batches: seq<seq<nat>>, most: nat)
    requires forall i :: 0 <= i < |batches| ==> EncodedSize(batches[i]) <= most
    ensures TotalEncoded(batches) <= |batches| * most
  {
    if batches != [] {
      TotalEncodedBound(batches[..|batches| - 1], most);
      assert |batches| * most == (|batches| - 1) * most + most;
    }
  }

  /** The encoded size of a full batch of full blocks. */
  function FullBatch(blockSize: int): nat {
    BatchSize(blockSize, true) * Base64Size(EffectiveSize(blockSize))
  }

  lemma Base64Bound(n: nat)
    ensures 3 * Base64Size(n) <= 4 * n + 8
  {
  }

  /** As many blocks as the target holds take up no more than the target. */
  lemma BatchWithinTarget(n: nat, size: nat)
    requires size > 0 && n <= TargetBatchBytes / size
    ensures n * size <= TargetBatchBytes
  {
    MonotoneProduct(n, TargetBatchBytes / size, size);
    assert TargetBatchBytes / size * size <= TargetBatchBytes;
  }

  lemma ProductBound(n: nat, size: nat, encoded: nat)
    requires 3 * encoded <= 4 * size + 8
    ensures 3 * (n * encoded) <= 4 * (n * size) + 8 * n
  {
    MonotoneProduct(3 * encoded, 4 * size + 8, n);
  }

  lemma FullBatchFits(blockSize: int)
    requires EffectiveSize(blockSize) <= 3 * 1024 * 1024
    ensures FullBatch(blockSize) <= 4 * 1024 * 1024
  {
    var size, n := EffectiveSize(blockSize), BatchSize(blockSize, true);
    Base64Bound(size);
    if n > 1 {
      assert n <= TargetBatchBytes / size && n <= 32;
      hide Base64Size, BatchSize;
      BatchWithinTarget(n, size);
      ProductBound(n, size, Base64Size(size));
    }
  }

  lemma MonotoneProduct(a: nat, b: nat, c: nat)
    requires a <= b
    ensures a * c <= b * c
  {
  }

  /**
   A healthy transfer is never shed: with at most ConcurrencyFor(true) batches outstanding, whatever
   the index list and the block lengths, their encoded data fits one client's budget, and each batch
   a 16 MiB frame, for every block size up to 3 MiB. BlockSizeFor never exceeds 2 MiB.
   */
  lemma InFlightFitsBudget(blockSize: int, outstanding: seq<seq<nat>>)
    requires EffectiveSize(blockSize) <= 3 * 1024 * 1024
    requires |outstanding| <= ConcurrencyFor(true)
    requires forall i :: 0 <= i < |outstanding| ==> WanBatch(outstanding[i], blockSize)
    ensures TotalEncoded(outstanding) <= Relay.MaxQueuedBytesPerClient
    ensures forall i :: 0 <= i < |outstanding| ==> EncodedSize(outstanding[i]) <= 16 * 1024 * 1024
  {
    FullBatchFits(blockSize);
    forall i | 0 <= i < |outstanding| ensures EncodedSize(outstanding[i]) <= 4 * 1024 * 1024 {
      EncodedSizeBound(outstanding[i], EffectiveSize(blockSize));
      MonotoneProduct(|outstanding[i]|, BatchSize(blockSize, true), Base64Size(EffectiveSize(blockSize)));
    }
    TotalEncodedBound(outstanding, 4 * 1024 * 1024);
  }

  /** 3 MiB is the exact limit: of any larger block size, eight answers can overrun the 32 MiB. */
  lemma BudgetIsTight(blockSize: int)
    ensures blockSize <= 3 * 1024 * 1024 <==>
      forall outstanding: seq<seq<nat>> ::
        |outstanding| <= 8 && (forall i :: 0 <= i < |outstanding| ==> WanBatch(outstanding[i], blockSize)) ==>
          TotalEncoded(outstanding) <= 33_554_432
  {
    if blockSize <= 3 * 1024 * 1024 {
      forall outstanding: seq<seq<nat>>
        | |outstanding| <= 8 && forall i :: 0 <= i < |outstanding| ==> WanBatch(outstanding[i], blockSize)
        ensures TotalEncoded(outstanding) <= 33_554_432
      {
        InFlightFitsBudget(blockSize, outstanding);
      }
    } else {
      var size: nat := blockSize;
      var full: seq<seq<nat>> := seq(8, _ => [size]);
      OneBlockEach(size, 8);
      assert Base64Size(size) > 4 * 1024 * 1024;
      assert TotalEncoded(full) > 33_554_432;
      assert forall i :: 0 <= i < |full| ==> WanBatch(full[i], blockSize);
    }
  }

  lemma {:induction false} OneBlockEach(size: nat, n: nat)
    ensures TotalEncoded(seq(n, _ => [size])) == n * Base64Size(size)
  {
    if n > 0 {
      var batches := seq(n, _ => [size]);
      assert batches[..n - 1] == seq(n - 1, _ => [size]);
      OneBlockEach(size, n - 1);
      assert [size][..0] == [];
      assert EncodedSize([]) == 0;
      assert EncodedSize([size]) == Base64Size(size);
      assert n * Base64Size(size) == (n - 1) * Base64Size(size) + Base64Size(size);
    }
  }

  /** Every file is cut into blocks for which the budget holds. */
  lemma EveryFileFits(fileSize: int, outstanding: seq<seq<nat>>)
    requires |outstanding| <= ConcurrencyFor(true)
    requires forall i :: 0 <= i < |outstanding| ==> WanBatch(outstanding[i], BlockSizeFor(fileSize))
    ensures TotalEncoded(outstanding) <= Relay.MaxQueuedBytesPerClient
  {
    InFlightFitsBudget(BlockSizeFor(fileSize), outstanding);
  }
}
