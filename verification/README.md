# Embedding throttling: the shared data path, in Dafny

Two scripts embed a set of text files with a remote embedding service while
limiting how many requests are in flight. They share one data path:

1. **Chunking.** Each file's text is cut into `chunk_size`-character slices by
   `[c[i:i+chunk_size] for i in range(0, len(c), chunk_size)]`. The slices are
   appended to `all_chunks` in file order.
2. **Batching.** `all_chunks` is cut the same way into `batch_size`-chunk batches.
   The manual script also counts them by hand: the floor quotient of the chunk
   count by `batch_size`, plus one when the division leaves a remainder.
3. **Dispatch.** Each batch goes through `embed_batch`. An empty batch returns `[]`
   without calling the service.
   - The *manual* script walks the batches in windows `batches[i:i+max_concurrency]`
     for `i` in `range(0, num_batch, max_concurrency)`. It gathers each window and
     extends `result` with every batch's results in order.
   - The *semaphore* script gathers all batches at once behind a semaphore. It then
     flattens the per-batch results in submission order.

The model has five modules, one file each:

- `Slicing` (`slicing.dfy`) holds what the two cuts and the flattening share:
  - Python slicing with clamped bounds (`PySlice`);
  - `range(lo, stop, step)` (`PyRange`) and the CPython formula for its length (`RangeLen`);
  - the comprehension itself (`SliceAll`);
  - `Flatten`, which is both `extend` in a loop and the nested comprehension;
  - the partition laws.
- `Chunking` (`chunking.dfy`) holds the chunk comprehension and the `all_chunks`
  loop, plus `num_batch` and `batches`.
- `Embedding` (`embedding.dfy`) holds `embed_batch` and `asyncio.gather`. The
  service is a function parameter `api`. Being a Dafny function, it never fails
  and is deterministic: the same batch always gets the same answer. Nothing else
  is assumed about it.
- `ManualThrottling` (`manual_throttling.dfy`) holds the window loop. It is
  written as a method with loop invariants.
- `SemaphoreThrottling` (`semaphore_throttling.dfy`) holds the gather-and-flatten
  result. It also proves that the result equals the window walk's result for
  every `max_concurrency >= 1`.

`chunk_size`, `batch_size` and `max_concurrency` are natural numbers, and the
model requires them to be positive. The scripts never check these values; they
fix them at 500, 8 and 4. With a zero size the scripts fail or stall in
different places, listed under "Left out". Embedding vectors are the opaque
element type `R`.

## Model

| member | source | states |
|---|---|---|
| Slicing.PySlice | async/control_task_throttling.py:47 | Python's `s[lo:hi]`: the upper bound is clamped to `len(s)`, the slice is empty when `lo` is at or past it, and otherwise element `j` of the slice is `s[lo+j]`. |
| Slicing.SliceAll | async/control_task_throttling.py:42 | The slicing comprehension over `range(0, len(s), k)`, used for both chunks and batches. It has no contract of its own: its laws are proved in `SliceAllIsPartition`, `SliceAllCount`, `SliceAllIsChop` and `PartitionUnique`. |
| Slicing.Flatten | async/control_task_throttling_semaphore.py:48 | The nested comprehension that concatenates pieces in order; its length is the sum of the pieces' lengths. Its laws over concatenation and positions are proved in `FlattenAppend`, `FlattenSnoc` and `FlattenIndex`. |
| Slicing.SliceAllIsPartition | async/control_task_throttling.py:35 | The slice comprehension concatenates back to its input. Each piece has 1 to `k` elements, and all but the last have exactly `k`. An empty input, and only an empty input, gives no pieces. |
| Slicing.SliceAllCount | async/control_task_throttling.py:35 | The comprehension yields ceil(len/k) pieces, which is the CPython length of `range(0, len, k)`. |
| Slicing.SliceAllIsChop | async/control_task_throttling_semaphore.py:40 | The comprehension equals the recursive cut "take `s[lo:lo+k]`, then cut from `lo+k`", started at 0. |
| Slicing.RangeSlicesAreChop | async/control_task_throttling_semaphore.py:40 | Slicing at every start of `range(lo, len(s), k)` gives the recursive cut from `lo`, for every `lo`. |
| Slicing.ChopPartitions | async/control_task_throttling_semaphore.py:40 | The recursive cut from `lo` concatenates back to `s[lo:]`, in pieces of 1 to `k` elements with only the last possibly shorter. |
| Slicing.RangeLen | async/control_task_throttling.py:46 | The CPython length of `range(0, stop, step)` is ceil(stop/step): the fewest `step`-wide pieces that cover `stop`. |
| Slicing.PartitionUnique | async/control_task_throttling.py:42 | Any cut of a sequence into full `k`-pieces with a shorter-or-full last piece is exactly what the comprehension builds, so the batches are the one such partition. |
| Slicing.PyRange | async/control_task_throttling.py:46 | `range(lo, stop, step)` is empty exactly when `lo >= stop`. Otherwise it starts at `lo`, and every element lies in `[lo, stop)`. |
| Slicing.PyRangeStep | async/control_task_throttling.py:46 | Consecutive elements of `range(lo, stop, step)` differ by exactly `step`. |
| Slicing.PyRangeLength | async/control_task_throttling.py:46 | The recursive `range(lo, stop, step)` has the length of CPython's formula for `stop - lo`, that is, ceil((stop-lo)/step). |
| Slicing.ChopUnique | async/control_task_throttling.py:42 | Any cut of `s[lo:]` into pieces of 1 to `k` elements, all but the last exactly `k`, is the recursive cut from `lo`. |
| Slicing.FlattenIndex | async/control_task_throttling_semaphore.py:48 | In the flattened list, element `j` of piece `i` sits right after all elements of pieces `0..i-1`. |
| Chunking.AllChunks | async/control_task_throttling.py:33-35 | `all_chunks` after the loop over files. It has no contract of its own: `AllChunksLossless` proves it spells out the files' texts within the width bound, and `CollectChunks` proves the loop builds it. |
| Chunking.AllChunksLossless | async/control_task_throttling.py:33-35 | The collected chunks, concatenated, equal all files' texts concatenated in file order. Every chunk has 1 to `chunk_size` characters. |
| Chunking.CollectChunks | async/control_task_throttling_semaphore.py:31-34 | The `extend` loop builds the in-order concatenation of the per-file chunk lists. Its chunks spell out the files' text and respect the width bound. |
| Chunking.NumBatch | async/control_task_throttling.py:41 | The hand-written `num_batch` is the ceiling of `n / batch_size`: the fewest batches covering `n`. It equals the length of `range(0, n, batch_size)`. |
| Chunking.NumBatchIsCeil | async/control_task_throttling.py:41 | Both branches of the `1 if n % batch_size != 0 else 0` expression give the least count whose product with `batch_size` reaches `n`. |
| Chunking.Batches | async/control_task_throttling.py:42 | `batches`. It has no contract of its own: `BatchesPartition`, `NumBatchCountsBatches` and `Slicing.PartitionUnique` state its laws. |
| Chunking.BatchesPartition | async/control_task_throttling.py:42 | The batches partition `all_chunks`: they concatenate to it, each has 1 to `batch_size` chunks, and only the last may be shorter. No chunks, and only no chunks, means no batches. |
| Chunking.NumBatchCountsBatches | async/control_task_throttling.py:41-42 | The hand-counted `num_batch` equals the number of batches the comprehension builds, so `range(0, num_batch, max_concurrency)` reaches every batch. |
| Embedding.EmbedBatch | async/control_task_throttling.py:16-19 | An empty batch gives `[]` without a service call. A non-empty batch gives the service's answer. |
| Embedding.Gather | async/control_task_throttling_semaphore.py:47 | Gather returns one result per submitted call, and slot `i` holds the result for input `i`, whatever the completion order. |
| Embedding.FlatMap | async/control_task_throttling_semaphore.py:47-48 | Gather, then flatten in submission order. It has no contract of its own: `FlatMapAppend` and `FlatMapIndex` state its laws. |
| Embedding.FlatMapAppend | async/control_task_throttling.py:49-51 | Gathering and flattening over two consecutive runs of batches equals doing each run and concatenating. |
| Embedding.FlatMapIndex | async/control_task_throttling_semaphore.py:47-48 | Result `j` of batch `i` lands after all results of the earlier batches in the flat list. |
| Embedding.GuardUnusedOnNonEmptyBatches | async/control_task_throttling_semaphore.py:15-16 | When no batch is empty, the `if not batch` guard changes nothing: the flat result is the service's answers, batch by batch. |
| Embedding.OneResultPerItem | async/control_task_throttling.py:49-53 | If the service returns one vector per input text, the flat result has one entry per chunk across all batches. |
| ManualThrottling.WindowedResult | async/control_task_throttling.py:46-51 | What the window loop accumulates, window by window. It has no contract of its own: `WindowedIsFlatMap`, `WindowedResultSnoc` and `ConcurrencyDoesNotChangeResult` state its laws, and `WalkWindows` proves the loop computes it. |
| ManualThrottling.WindowedIsFlatMap | async/control_task_throttling.py:45-51 | Appending each window's gathered results in turn equals one flat map over the windows' concatenation. |
| ManualThrottling.ConcurrencyDoesNotChangeResult | async/control_task_throttling.py:46-51 | For every window width `>= 1`, the window walk over `batches` yields the flat map over all batches. |
| ManualThrottling.WindowWalk | async/control_task_throttling.py:41-51 | After the loop, `result` is the in-order concatenation of `embed_batch(b)` over all batches. The visited windows have 1 to `max_concurrency` batches each, and together they list the batch indices `0..num_batch-1` once each, in increasing order. With no chunks, nothing is visited and `result` is empty. |
| ManualThrottling.Run | async/control_task_throttling.py:31-51 | From file contents to `result`: the windowed result is the flat map of `embed_batch` over the batches of the collected chunks, and the windows cover every batch index once, in order. |
| ManualThrottling.WalkWindows | async/control_task_throttling.py:46-51 | When `num_batch` is the number of batches, the loop over `range(0, num_batch, max_concurrency)` leaves in `result` the window-by-window result over every window `batches[i:i+max_concurrency]`. `visits` is the same cut of the index list `0..num_batch-1`. |
| ManualThrottling.WindowedResultSnoc | async/control_task_throttling.py:47-51 | One more loop turn appends exactly the next window's gathered results to what the earlier turns produced. |
| ManualThrottling.WalkDone | async/control_task_throttling.py:46-51 | Once every start has been visited, the result is the flat map over all batches. The visited windows hold 1 to `max_concurrency` indices each and concatenate to `0..num_batch-1`. There is one window per start of `range(0, num_batch, max_concurrency)`. With no batches, nothing is visited. |
| ManualThrottling.ExtendAll | async/control_task_throttling.py:50-51 | Extending `result` with each sub-result in order appends their flattening. |
| SemaphoreThrottling.Results | async/control_task_throttling_semaphore.py:40-47 | There is one result slot per batch, and slot `i` is `embed_batch(batches[i])`. |
| SemaphoreThrottling.Embeddings | async/control_task_throttling_semaphore.py:48 | The number of embeddings is the sum of the per-batch result lengths. No chunks means no embeddings. |
| SemaphoreThrottling.EmbeddingsInBatchOrder | async/control_task_throttling_semaphore.py:47-48 | Embedding `j` of batch `i` sits after all embeddings of earlier batches, so completion order plays no part. |
| SemaphoreThrottling.SameAsWindowedWalk | async/control_task_throttling_semaphore.py:47-48 | The semaphore script's `embeddings` equal the manual script's windowed `result` for the same inputs and any `max_concurrency >= 1`. |
| SemaphoreThrottling.OneEmbeddingPerChunk | async/control_task_throttling_semaphore.py:40-50 | If the service returns one vector per text, the script ends with exactly one embedding per chunk. |

## Left out

- The embedding service call (`client.embeddings.create`) and reading `.data[*].embedding` from its response are left out, because they are a foreign network call. The service is the function parameter `api`, and its failure is not modelled. A failing call would abort the surrounding gather.
- Loading the environment and API key, `load_txt_file`, `print`, and `time.perf_counter` are left out as I/O. File contents are an input sequence of strings.
- The semaphore, `async with`, and the interleaving of coroutines are left out. Only the order-preserving result of `gather` is modelled, so the bound on in-flight calls under the semaphore is not stated. For the manual script, the model does state that each window holds at most `max_concurrency` batches.
- The summarization scripts (`api_io_workload.py`, `api_io_workload_async.py`) are left out. They consist only of file reads, API calls, and printing.
- Floating-point embedding values are left out: they are the opaque type `R`.
- `api` is deterministic: every call with the same batch returns the same answer, in both scripts. The service itself promises no such thing. `ManualThrottling.ConcurrencyDoesNotChangeResult` and `SemaphoreThrottling.SameAsWindowedWalk` state that the two scripts agree only under this assumption. A service that answers differently from call to call could make them differ.
- Zero sizes are excluded by preconditions, and each script fails in its own way:
  - `chunk_size == 0`: both scripts raise `ValueError` from the zero-step `range` on the chunking line once there is a file (async/control_task_throttling.py:35, async/control_task_throttling_semaphore.py:34).
  - `batch_size == 0`: the manual script raises `ZeroDivisionError` on the `num_batch` line (async/control_task_throttling.py:41) before it reaches `range`. The semaphore script raises `ValueError` from `range` on its batching line (async/control_task_throttling_semaphore.py:40).
  - `max_concurrency == 0`: the manual script raises `ValueError` from `range` on its loop line (async/control_task_throttling.py:46).
- SemaphoreThrottling.Results: takes no `max_concurrency`, so it does not model a semaphore with zero permits. `asyncio.Semaphore(0)` is accepted, and every `async with sem` then waits forever (async/control_task_throttling_semaphore.py:43-46). The script hangs whenever there is at least one batch, while `Results` and `Embeddings` still return the embeddings. `asyncio.Semaphore` with a negative count raises `ValueError`.
- Negative sizes are not modelled: the sizes are `nat`. In Python a negative `chunk_size` or `batch_size` is a negative `range` step, and it silently yields no chunks or no batches.
