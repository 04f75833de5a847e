/**
 * The manual throttling script: batches are sent in windows of
 * `max_concurrency`, each window gathered before the next one starts, and
 * every window's results are appended to `result` in order.
 */
module ManualThrottling {
  import opened Slicing
  import opened Chunking
  import opened Embedding

  /** What the window walk appends: the flat results of each window in turn. */
  function WindowedResult<A, R>(f: A -> seq<R>, windows: seq<seq<A>>): (result: seq<R>)
  {
    if |windows| == 0 then [] else FlatMap(f, windows[0]) + WindowedResult(f, windows[1..])
  }

  /** Walking windows and appending each window's gathered results is the
      same as one flat map over the windows' concatenation. */
  lemma {:induction false} WindowedIsFlatMap<A, R>(f: A -> seq<R>, windows: seq<seq<A>>)
    ensures WindowedResult(f, windows) == FlatMap(f, Flatten(windows))
  {
    if |windows| > 0 {
      WindowedIsFlatMap(f, windows[1..]);
      FlatMapAppend(f, windows[0], Flatten(windows[1..]));
    }
  }

  /** For any window width, the windows `batches[i:i+w]` visited at
      `i = 0, w, 2w, ...` produce exactly the flat map over all batches. */
  lemma ConcurrencyDoesNotChangeResult<A, R>(f: A -> seq<R>, batches: seq<A>, maxConcurrency: nat)
    requires maxConcurrency > 0
    ensures WindowedResult(f, SliceAll(batches, maxConcurrency)) == FlatMap(f, batches)
  {
    WindowedIsFlatMap(f, SliceAll(batches, maxConcurrency));
    SliceAllIsPartition(batches, maxConcurrency);
  }

  /** The `main` coroutine of the manual script, with the file contents and
      the embedding service as parameters. Besides `result` it reports, per
      window, the batch indices that window sent. */
  method Run<R>(contents: seq<string>, chunkSize: nat, batchSize: nat, maxConcurrency: nat,
                api: seq<string> -> seq<R>)
    returns (result: seq<R>, visits: seq<seq<nat>>)
    requires chunkSize > 0 && batchSize > 0 && maxConcurrency > 0
    ensures var batches := Batches(AllChunks(contents, chunkSize), batchSize);
      && result == FlatMap(Embedder(api), batches)
      && Flatten(visits) == Indices(|batches|)
      && (forall w :: 0 <= w < |visits| ==> 1 <= |visits[w]| <= maxConcurrency)
    ensures AllChunks(contents, chunkSize) == [] ==> result == [] && visits == []
  {
    var allChunks := CollectChunks(contents, chunkSize);
    result, visits := WindowWalk(allChunks, batchSize, maxConcurrency, api);
  }

  /** Lines from `num_batch` to the end of the loop: count and build the
      batches, then walk them window by window. */
  method WindowWalk<R>(allChunks: seq<string>, batchSize: nat, maxConcurrency: nat,
                       api: seq<string> -> seq<R>)
    returns (result: seq<R>, visits: seq<seq<nat>>)
    requires batchSize > 0 && maxConcurrency > 0
    ensures var batches := Batches(allChunks, batchSize);
      && result == FlatMap(Embedder(api), batches)
      && result == WindowedResult(Embedder(api), SliceAll(batches, maxConcurrency))
      && Flatten(visits) == Indices(|batches|)
      && (forall w :: 0 <= w < |visits| ==> 1 <= |visits[w]| <= maxConcurrency)
      && |visits| == RangeLen(|batches|, maxConcurrency)
    ensures allChunks == [] ==> result == [] && visits == []
  {
    var numBatch := NumBatch(|allChunks|, batchSize);
    var batches := Batches(allChunks, batchSize);
    BatchesPartition(allChunks, batchSize);
    NumBatchCountsBatches(allChunks, batchSize);
    result, visits := WalkWindows(batches, numBatch, maxConcurrency, Embedder(api));
    WalkDone(Embedder(api), batches, maxConcurrency, result, visits);
  }

  /** The window loop: for each start `i` of `range(0, num_batch, max_concurrency)`,
      gather the window of batches from `i` and extend `result` with its
      results. `visits` records the batch indices of each window. */
  method WalkWindows<R>(batches: seq<seq<string>>, numBatch: nat, maxConcurrency: nat,
                        f: seq<string> -> seq<R>)
    returns (result: seq<R>, visits: seq<seq<nat>>)
    requires maxConcurrency > 0 && numBatch == |batches|
    ensures result == WindowedResult(f, SliceAll(batches, maxConcurrency))
    ensures visits == SliceAll(Indices(numBatch), maxConcurrency)
  {
    ghost var windows := SliceAll(batches, maxConcurrency);
    ghost var indexWindows := SliceAll(Indices(numBatch), maxConcurrency);
    result := [];
    visits := [];
    var starts := PyRange(0, numBatch, maxConcurrency);
    for k := 0 to |starts|
      invariant result == WindowedResult(f, windows[..k])
      invariant visits == indexWindows[..k]
    {
      var i := starts[k];
      SliceAllAt(batches, maxConcurrency, k, i);
      SliceAllAt(Indices(numBatch), maxConcurrency, k, i);
      var currentBatches := PySlice(batches, i, i + maxConcurrency);
      assert currentBatches == windows[k];
      var currentIndices := PySlice(Indices(numBatch), i, i + maxConcurrency);
      assert currentIndices == indexWindows[k];
      var subResults := Gather(f, currentBatches);
      WindowedResultSnoc(f, windows, k);
      result := ExtendAll(result, subResults);
      TakeSnoc(indexWindows, k);
      visits := visits + [currentIndices];
    }
    assert windows[..|starts|] == windows;
    assert indexWindows[..|starts|] == indexWindows;
  }

  /** Once every start of `range(0, num_batch, w)` has been visited, the
      result covers all batches and the visited windows partition the batch
      indices, one window per start. */
  lemma WalkDone<R>(f: seq<string> -> seq<R>, batches: seq<seq<string>>, w: nat,
                    result: seq<R>, visits: seq<seq<nat>>)
    requires w > 0
    requires result == WindowedResult(f, SliceAll(batches, w))
    requires visits == SliceAll(Indices(|batches|), w)
    ensures result == FlatMap(f, batches)
    ensures Flatten(visits) == Indices(|batches|)
    ensures forall j :: 0 <= j < |visits| ==> 1 <= |visits[j]| <= w
    ensures |visits| == RangeLen(|batches|, w)
    ensures batches == [] ==> result == [] && visits == []
  {
    ConcurrencyDoesNotChangeResult(f, batches, w);
    SliceAllIsPartition(Indices(|batches|), w);
    SliceAllCount(Indices(|batches|), w);
  }

  /** The inner loop that extends `result` with each sub-result in turn. */
  method ExtendAll<R>(prefix: seq<R>, subResults: seq<seq<R>>) returns (result: seq<R>)
    ensures result == prefix + Flatten(subResults)
  {
    result := prefix;
    for t := 0 to |subResults|
      invariant result == prefix + Flatten(subResults[..t])
    {
      FlattenSnoc(subResults, t);
      result := result + subResults[t];
    }
    assert subResults[..|subResults|] == subResults;
  }

  /** One more turn of the window loop appends the next window's gathered
      results. */
  lemma {:induction false} WindowedResultSnoc<A, R>(f: A -> seq<R>, windows: seq<seq<A>>, k: nat)
    requires k < |windows|
    ensures WindowedResult(f, windows[..k + 1])
      == WindowedResult(f, windows[..k]) + Flatten(Gather(f, windows[k]))
  {
    WindowedIsFlatMap(f, windows[..k + 1]);
    WindowedIsFlatMap(f, windows[..k]);
    FlattenSnoc(windows, k);
    FlatMapAppend(f, Flatten(windows[..k]), windows[k]);
  }
}
