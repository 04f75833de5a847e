/**
 * The semaphore throttling script: every batch is submitted at once, a
 * semaphore of `max_concurrency` permits bounds how many are in flight, and
 * `asyncio.gather` returns the per-batch results in submission order, which
 * are then flattened. The permits affect only timing, so the result is a
 * function of the batches alone.
 */
module SemaphoreThrottling {
  import opened Slicing
  import opened Chunking
  import opened Embedding
  import ManualThrottling

  /** `results` of the semaphore script: one slot per batch, in batch order. */
  function Results<R>(contents: seq<string>, chunkSize: nat, batchSize: nat,
                      api: seq<string> -> seq<R>): (results: seq<seq<R>>)
    requires chunkSize > 0 && batchSize > 0
    ensures |results| == |Batches(AllChunks(contents, chunkSize), batchSize)|
    ensures forall i :: 0 <= i < |results| ==>
      results[i] == EmbedBatch(api, Batches(AllChunks(contents, chunkSize), batchSize)[i])
  {
    Gather(Embedder(api), Batches(AllChunks(contents, chunkSize), batchSize))
  }

  /** `embeddings`: the per-batch results concatenated in batch order. */
  function Embeddings<R>(contents: seq<string>, chunkSize: nat, batchSize: nat,
                         api: seq<string> -> seq<R>): (embeddings: seq<R>)
    requires chunkSize > 0 && batchSize > 0
    ensures |embeddings| == TotalLength(Results(contents, chunkSize, batchSize, api))
    ensures AllChunks(contents, chunkSize) == [] ==> embeddings == []
  {
    SliceAllIsPartition(AllChunks(contents, chunkSize), batchSize);
    Flatten(Results(contents, chunkSize, batchSize, api))
  }

  /** Result `j` of batch `i` sits in `embeddings` right after all results of
      the batches before `i`: completion order plays no part. */
  lemma EmbeddingsInBatchOrder<R>(contents: seq<string>, chunkSize: nat, batchSize: nat,
                                  api: seq<string> -> seq<R>, i: nat, j: nat)
    requires chunkSize > 0 && batchSize > 0
    requires i < |Batches(AllChunks(contents, chunkSize), batchSize)|
    requires j < |Results(contents, chunkSize, batchSize, api)[i]|
    ensures var results := Results(contents, chunkSize, batchSize, api);
      && TotalLength(results[..i]) + j < |Embeddings(contents, chunkSize, batchSize, api)|
      && Embeddings(contents, chunkSize, batchSize, api)[TotalLength(results[..i]) + j]
         == EmbedBatch(api, Batches(AllChunks(contents, chunkSize), batchSize)[i])[j]
  {
    FlattenIndex(Results(contents, chunkSize, batchSize, api), i, j);
  }

  /** The semaphore script and the manual script compute the same sequence:
      for every window width, walking the batches window by window yields
      `embeddings`. */
  lemma SameAsWindowedWalk<R>(contents: seq<string>, chunkSize: nat, batchSize: nat,
                              maxConcurrency: nat, api: seq<string> -> seq<R>)
    requires chunkSize > 0 && batchSize > 0 && maxConcurrency > 0
    ensures var batches := Batches(AllChunks(contents, chunkSize), batchSize);
      Embeddings(contents, chunkSize, batchSize, api)
      == ManualThrottling.WindowedResult(Embedder(api), SliceAll(batches, maxConcurrency))
  {
    var batches := Batches(AllChunks(contents, chunkSize), batchSize);
    ManualThrottling.ConcurrencyDoesNotChangeResult(Embedder(api), batches, maxConcurrency);
  }

  /** When the service returns one embedding per input text, the script
      ends with one embedding per chunk. */
  lemma OneEmbeddingPerChunk<R>(contents: seq<string>, chunkSize: nat, batchSize: nat,
                                api: seq<string> -> seq<R>)
    requires chunkSize > 0 && batchSize > 0
    requires forall b :: |api(b)| == |b|
    ensures |Embeddings(contents, chunkSize, batchSize, api)| == |AllChunks(contents, chunkSize)|
  {
    var batches := Batches(AllChunks(contents, chunkSize), batchSize);
    OneResultPerItem(api, batches);
    BatchesPartition(AllChunks(contents, chunkSize), batchSize);
  }
}
