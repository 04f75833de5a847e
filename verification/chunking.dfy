/**
 * The first half of the data path both throttling scripts share: cut every
 * file's text into fixed-width chunks, collect them in file order, count the
 * batches by hand, and group the chunks into batches.
 */
module Chunking {
  import opened Slicing

  /** Each file's chunk list, in file order. */
  function ChunkLists(contents: seq<string>, chunkSize: nat): (lists: seq<seq<string>>)
    requires chunkSize > 0
    ensures |lists| == |contents|
  {
    seq(|contents|, i requires 0 <= i < |contents| => SliceAll(contents[i], chunkSize))
  }

  /** `all_chunks` after the loop that extends it with each file's chunks. */
  function AllChunks(contents: seq<string>, chunkSize: nat): (allChunks: seq<string>)
    requires chunkSize > 0
  {
    Flatten(ChunkLists(contents, chunkSize))
  }

  /** The collected chunks spell out the files' texts concatenated in file
      order, and every one of them is 1 to `chunkSize` characters long. */
  lemma {:induction false} AllChunksLossless(contents: seq<string>, chunkSize: nat)
    requires chunkSize > 0
    ensures Flatten(AllChunks(contents, chunkSize)) == Flatten(contents)
    ensures WidthsWithin(AllChunks(contents, chunkSize), chunkSize)
  {
    if |contents| > 0 {
      var lists := ChunkLists(contents, chunkSize);
      var first := SliceAll(contents[0], chunkSize);
      var later := AllChunks(contents[1..], chunkSize);
      assert lists[1..] == ChunkLists(contents[1..], chunkSize);
      assert AllChunks(contents, chunkSize) == first + later;
      AllChunksLossless(contents[1..], chunkSize);
      SliceAllIsPartition(contents[0], chunkSize);
      FlattenAppend(first, later);
    }
  }

  /** The loop that extends `all_chunks` with each file's chunk list in turn. */
  method CollectChunks(contents: seq<string>, chunkSize: nat) returns (allChunks: seq<string>)
    requires chunkSize > 0
    ensures allChunks == AllChunks(contents, chunkSize)
    ensures Flatten(allChunks) == Flatten(contents)
    ensures WidthsWithin(allChunks, chunkSize)
  {
    var lists := ChunkLists(contents, chunkSize);
    allChunks := [];
    for i := 0 to |contents|
      invariant allChunks == Flatten(lists[..i])
    {
      FlattenSnoc(lists, i);
      allChunks := allChunks + SliceAll(contents[i], chunkSize);
    }
    assert lists[..|contents|] == lists;
    AllChunksLossless(contents, chunkSize);
  }

  /** `num_batch`: the floor quotient of the chunk count by the batch size,
      plus one when there is a remainder -- a hand-written ceiling division. */
  function NumBatch(n: nat, batchSize: nat): (r: nat)
    requires batchSize > 0
    ensures IsCeilQuotient(r, n, batchSize)
    ensures r == RangeLen(n, batchSize)
  {
    NumBatchIsCeil(n, batchSize);
    CeilQuotientUnique(n / batchSize + (if n % batchSize != 0 then 1 else 0), RangeLen(n, batchSize), n, batchSize);
    n / batchSize + (if n % batchSize != 0 then 1 else 0)
  }

  lemma NumBatchIsCeil(n: nat, batchSize: nat)
    requires batchSize > 0
    ensures IsCeilQuotient(n / batchSize + (if n % batchSize != 0 then 1 else 0), n, batchSize)
  {
    var q := n / batchSize;
    assert n == q * batchSize + n % batchSize;
    assert (q + 1) * batchSize == q * batchSize + batchSize;
    if q > 0 {
      assert (q - 1) * batchSize == q * batchSize - batchSize;
    }
  }

  /** `batches`: the chunk list cut by the slicing comprehension into
      `batchSize`-wide runs. */
  function Batches(allChunks: seq<string>, batchSize: nat): (batches: seq<seq<string>>)
    requires batchSize > 0
  {
    SliceAll(allChunks, batchSize)
  }

  /** The batches partition the chunk list in order, each holding 1 to
      `batchSize` chunks and only the last one possibly fewer; no chunks,
      and only no chunks, means no batches. */
  lemma BatchesPartition(allChunks: seq<string>, batchSize: nat)
    requires batchSize > 0
    ensures IsPartition(Batches(allChunks, batchSize), allChunks, batchSize)
    ensures allChunks == [] <==> Batches(allChunks, batchSize) == []
  {
    SliceAllIsPartition(allChunks, batchSize);
  }

  /** The hand-counted `num_batch` is exactly the number of batches the
      comprehension builds. */
  lemma NumBatchCountsBatches(allChunks: seq<string>, batchSize: nat)
    requires batchSize > 0
    ensures |Batches(allChunks, batchSize)| == NumBatch(|allChunks|, batchSize)
  {
    SliceAllCount(allChunks, batchSize);
  }
}
