/**
 * `embed_batch` and `asyncio.gather` as both scripts use them. The remote
 * embedding service is a function parameter `api`: a total, deterministic
 * function, so it never fails and answers the same batch the same way every
 * time; nothing else is known about it. The result element type `R` stands
 * for an embedding vector.
 */
module Embedding {
  import opened Slicing

  /** `embed_batch`: an empty batch yields no results and never reaches the
      service; any other batch yields what the service returns for it. */
  function EmbedBatch<R>(api: seq<string> -> seq<R>, batch: seq<string>): (r: seq<R>)
    ensures batch == [] ==> r == []
    ensures batch != [] ==> r == api(batch)
  {
    if |batch| == 0 then [] else api(batch)
  }

  /** `embed_batch` with the service fixed, as a value to map over batches. */
  function Embedder<R>(api: seq<string> -> seq<R>): (embed: seq<string> -> seq<R>)
  {
    batch => EmbedBatch(api, batch)
  }

  /** `asyncio.gather` over one call of `f` per element of `xs`: whatever
      order the calls complete in, slot `i` holds the result for `xs[i]`. */
  function Gather<A, R>(f: A -> seq<R>, xs: seq<A>): (results: seq<seq<R>>)
    ensures |results| == |xs|
    ensures forall i :: 0 <= i < |xs| ==> results[i] == f(xs[i])
  {
    seq(|xs|, i requires 0 <= i < |xs| => f(xs[i]))
  }

  /** Gather the calls and concatenate their results in submission order. */
  function FlatMap<A, R>(f: A -> seq<R>, xs: seq<A>): (flat: seq<R>)
  {
    Flatten(Gather(f, xs))
  }

  /** Gathering over a concatenation is concatenating the gathers, so the
      flat results of two consecutive runs of batches concatenate. */
  lemma FlatMapAppend<A, R>(f: A -> seq<R>, a: seq<A>, b: seq<A>)
    ensures Gather(f, a + b) == Gather(f, a) + Gather(f, b)
    ensures FlatMap(f, a + b) == FlatMap(f, a) + FlatMap(f, b)
  {
    assert Gather(f, a + b) == Gather(f, a) + Gather(f, b);
    FlattenAppend(Gather(f, a), Gather(f, b));
  }

  /** Result `j` of batch `i` lands in the flat list right after all the
      results of batches `0 .. i-1`. */
  lemma FlatMapIndex<A, R>(f: A -> seq<R>, xs: seq<A>, i: nat, j: nat)
    requires i < |xs| && j < |f(xs[i])|
    ensures TotalLength(Gather(f, xs[..i])) + j < |FlatMap(f, xs)|
    ensures FlatMap(f, xs)[TotalLength(Gather(f, xs[..i])) + j] == f(xs[i])[j]
  {
    var results := Gather(f, xs);
    assert results[..i] == Gather(f, xs[..i]);
    FlattenIndex(results, i, j);
  }

  /** When every batch is non-empty the empty-batch guard never fires: the
      flat results are exactly the service's results, batch by batch. */
  lemma {:induction false} GuardUnusedOnNonEmptyBatches<R>(api: seq<string> -> seq<R>, batches: seq<seq<string>>)
    requires forall i :: 0 <= i < |batches| ==> batches[i] != []
    ensures FlatMap(Embedder(api), batches) == FlatMap(api, batches)
  {
    var a := Gather(Embedder(api), batches);
    var b := Gather(api, batches);
    forall i | 0 <= i < |batches|
      ensures a[i] == b[i]
    {
      assert a[i] == EmbedBatch(api, batches[i]);
    }
    assert a == b;
  }

  /** If the service answers with one result per input, the flat list has
      one result per item across all batches. */
  lemma {:induction false} OneResultPerItem<R>(api: seq<string> -> seq<R>, batches: seq<seq<string>>)
    requires forall b :: |api(b)| == |b|
    ensures |FlatMap(Embedder(api), batches)| == |Flatten(batches)|
  {
    if |batches| > 0 {
      var f := Embedder(api);
      FlatMapAppend(f, batches[..1], batches[1..]);
      assert batches == batches[..1] + batches[1..];
      OneResultPerItem(api, batches[1..]);
      assert Gather(f, batches[..1]) == [f(batches[0])];
      assert |FlatMap(f, batches[..1])| == |f(batches[0])|;
      assert |f(batches[0])| == |batches[0]|;
    }
  }
}
