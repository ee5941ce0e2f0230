/**
 * Batch rendering: what one step of the render loop takes off the queue,
 * what it appends to the results container, and where a run of steps ends.
 */
module Render {
  import opened Text
  import opened Indexer
  import opened Snippets

  /**
   * One child of the results container: the "No matches found." placeholder,
   * or the result rendered for a record against a query. What a result shows
   * and where it scrolls to are determined by those two (Title, Excerpt, Target).
   */
  datatype ResultItem = NoMatches | Result(entry: IndexEntry, query: string)

  /** The result's title: the record's section title. */
  function Title(item: ResultItem): string
    requires item.Result?
  {
    item.entry.sectionTitle
  }

  /** The result's excerpt: the snippet of the record's original text around the query. */
  function Excerpt(item: ResultItem): string
    requires item.Result?
  {
    Snippet(item.entry, item.query)
  }

  /** The element a click on the result scrolls to. */
  function Target(item: ResultItem): nat
    requires item.Result?
  {
    item.entry.handle
  }

  /** Records rendered per step. */
  const BatchSize := 20

  /** The items `batch.forEach` appends to the fragment, one per record, in order. */
  function Rendered(batch: seq<IndexEntry>, query: string): (r: seq<ResultItem>)
    ensures |r| == |batch|
  {
    if batch == [] then [] else [Result(batch[0], query)] + Rendered(batch[1..], query)
  }

  /**
   * The item at position `k` is the result for the record at position `k`:
   * it shows that record's section title and snippet and scrolls to its element.
   */
  lemma {:induction false} RenderedAt(batch: seq<IndexEntry>, query: string, k: int)
    requires 0 <= k < |batch|
    ensures var item := Rendered(batch, query)[k];
      && item.Result?
      && Title(item) == batch[k].sectionTitle
      && Excerpt(item) == Snippet(batch[k], query)
      && Target(item) == batch[k].handle
  {
    if k > 0 {
      RenderedAt(batch[1..], query, k - 1);
    }
  }

  /**
   * When every record of the batch matches the query, every excerpt shows the
   * query (folded) right after its left context.
   */
  lemma RenderedShowsMatch(batch: seq<IndexEntry>, query: string, k: int)
    requires AllWellFormed(batch) && 0 <= k < |batch| && Contains(batch[k].textLower, query)
    ensures var item := Rendered(batch, query)[k];
      && item.Result?
      && OccursAt(ToLower(Excerpt(item)), query, |Ellipsis| + IndexOf(batch[k].textLower, query) - SnippetWindow(batch[k], query).start)
  {
    RenderedAt(batch, query, k);
    assert batch[k] in batch;
    SnippetShowsMatch(batch[k], query);
  }

  /** Rendering two batches one after the other renders their concatenation. */
  lemma {:induction false} RenderedAppend(a: seq<IndexEntry>, b: seq<IndexEntry>, query: string)
    ensures Rendered(a + b, query) == Rendered(a, query) + Rendered(b, query)
  {
    if a == [] {
      assert a + b == b;
    } else {
      assert (a + b)[1..] == a[1..] + b;
      RenderedAppend(a[1..], b, query);
    }
  }

  /** Rendering one more record of the batch appends its item. */
  lemma RenderedSnoc(batch: seq<IndexEntry>, i: int, query: string)
    requires 0 <= i < |batch|
    ensures Rendered(batch[..i + 1], query) == Rendered(batch[..i], query) + [Result(batch[i], query)]
  {
    RenderedAppend(batch[..i], [batch[i]], query);
    assert batch[..i + 1] == batch[..i] + [batch[i]];
  }

  /** The loop over one batch: builds the fragment item by item. */
  method RenderBatch(batch: seq<IndexEntry>, query: string) returns (fragment: seq<ResultItem>)
    ensures fragment == Rendered(batch, query)
  {
    fragment := [];
    var i := 0;
    while i < |batch|
      invariant 0 <= i <= |batch|
      invariant fragment == Rendered(batch[..i], query)
    {
      RenderedSnoc(batch, i, query);
      fragment := fragment + [Result(batch[i], query)];
      i := i + 1;
    }
    assert batch[..i] == batch;
  }

  // ---------------------------------------------------------------------------
  // `renderQueue.splice(0, batchSize)`
  // ---------------------------------------------------------------------------

  /** The records `splice(0, 20)` removes and returns: the first 20, or all of them when fewer are left. */
  function TakeBatch<T>(queue: seq<T>): (r: seq<T>)
    ensures |r| == Min(BatchSize, |queue|) && r == queue[..|r|]
    ensures queue != [] ==> r != []
  {
    queue[..Min(BatchSize, |queue|)]
  }

  /** What `splice(0, 20)` leaves in the queue. */
  function DropBatch<T>(queue: seq<T>): (r: seq<T>)
    ensures TakeBatch(queue) + r == queue
    ensures |r| == |queue| - Min(BatchSize, |queue|)
  {
    queue[Min(BatchSize, |queue|)..]
  }

  /** The queue after `steps` render steps with nothing else touching it. */
  function Remaining<T>(queue: seq<T>, steps: nat): seq<T>
    decreases steps
  {
    if steps == 0 || queue == [] then queue else Remaining(DropBatch(queue), steps - 1)
  }

  /** The records those `steps` render steps took off the queue, in the order they were appended. */
  function Delivered<T>(queue: seq<T>, steps: nat): seq<T>
    decreases steps
  {
    if steps == 0 || queue == [] then [] else TakeBatch(queue) + Delivered(DropBatch(queue), steps - 1)
  }

  /** After `steps` steps the queue has lost its first `20 * steps` records (or all of them). */
  lemma {:induction false} RemainingIsSuffix<T>(queue: seq<T>, steps: nat)
    ensures Remaining(queue, steps) == queue[Min(|queue|, BatchSize * steps)..]
    decreases steps
  {
    if steps > 0 && queue != [] {
      var rest := DropBatch(queue);
      RemainingIsSuffix(rest, steps - 1);
      var m := Min(BatchSize, |queue|);
      if |queue| <= BatchSize {
        assert rest == [];
      } else {
        assert Min(|rest|, BatchSize * (steps - 1)) + m == Min(|queue|, BatchSize * steps);
        assert rest[Min(|rest|, BatchSize * (steps - 1))..] == queue[Min(|queue|, BatchSize * steps)..];
      }
    }
  }

  /** Those steps delivered exactly the first `20 * steps` records (or all of them), in queue order. */
  lemma {:induction false} DeliveredIsPrefix<T>(queue: seq<T>, steps: nat)
    ensures Delivered(queue, steps) == queue[..Min(|queue|, BatchSize * steps)]
    decreases steps
  {
    if steps > 0 && queue != [] {
      var rest := DropBatch(queue);
      DeliveredIsPrefix(rest, steps - 1);
      var m := Min(BatchSize, |queue|);
      var n := Min(|rest|, BatchSize * (steps - 1));
      assert n + m == Min(|queue|, BatchSize * steps);
      assert queue[..m] + rest[..n] == queue[..m + n] by {
        assert queue == queue[..m] + rest;
      }
    }
  }

  /** Nothing is lost or repeated: what was delivered followed by what remains is the original queue. */
  lemma DeliveredThenRemaining<T>(queue: seq<T>, steps: nat)
    ensures Delivered(queue, steps) + Remaining(queue, steps) == queue
  {
    DeliveredIsPrefix(queue, steps);
    RemainingIsSuffix(queue, steps);
  }

  /** One more step delivers the next batch of what remained. */
  lemma {:induction false} DeliveredStep<T>(queue: seq<T>, steps: nat)
    ensures Delivered(queue, steps + 1) == Delivered(queue, steps) + TakeBatch(Remaining(queue, steps))
    ensures Remaining(queue, steps + 1) == DropBatch(Remaining(queue, steps))
    decreases steps
  {
    if queue != [] && steps > 0 {
      DeliveredStep(DropBatch(queue), steps - 1);
    }
  }

  /** Number of non-empty steps needed to drain a queue of `m` records: `ceil(m / 20)`. */
  function StepsToDrain(m: nat): (n: nat)
    ensures BatchSize * n >= m
    ensures n > 0 ==> BatchSize * (n - 1) < m
  {
    (m + BatchSize - 1) / BatchSize
  }

  /**
   * A queue of `m` records is empty after exactly `ceil(m / 20)` steps, and
   * those steps delivered every record once, in order.
   */
  lemma DrainedAfterSteps<T>(queue: seq<T>)
    ensures Remaining(queue, StepsToDrain(|queue|)) == []
    ensures Delivered(queue, StepsToDrain(|queue|)) == queue
    ensures forall k :: 0 <= k < StepsToDrain(|queue|) ==> Remaining(queue, k) != []
  {
    var n := StepsToDrain(|queue|);
    RemainingIsSuffix(queue, n);
    DeliveredIsPrefix(queue, n);
    forall k | 0 <= k < n ensures Remaining(queue, k) != [] {
      RemainingIsSuffix(queue, k);
    }
  }

  /** Records remain after `k` steps exactly when `k` is fewer than the steps needed to drain the queue. */
  lemma RemainingNonEmptyIff<T>(queue: seq<T>, k: nat)
    ensures Remaining(queue, k) != [] <==> k < StepsToDrain(|queue|)
  {
    RemainingIsSuffix(queue, k);
  }
}
