/**
 * The widget's module state and its event handlers: the index built at
 * page load, the debounced keystroke handler, the search, the batch render
 * loop and the clear action.
 *
 * Timers are modelled by what they capture: `searchTimeout` holds the query
 * of the pending debounced search and `nextFrame` the query of the pending
 * animation-frame callback. The host firing a callback is an explicit call
 * of `FireSearchTimer` or `AnimationFrame`.
 */
module Widget {
  import opened Wrappers
  import opened Text
  import opened Indexer
  import opened Matcher
  import opened Render

  /** The query a keystroke produces from the field's value: folded to lower case, then trimmed. */
  function QueryOf(value: string): (r: string)
    ensures |r| <= |value|
  {
    Trim(ToLower(value))
  }

  /** The query is empty exactly when the field holds nothing but whitespace: folding changes no whitespace. */
  lemma QueryEmptyIffBlank(value: string)
    ensures QueryOf(value) == [] <==> IsBlank(value)
  {
    var folded := ToLower(value);
    TrimEmptyIffBlank(folded);
    forall i | 0 <= i < |value| ensures IsWhitespace(folded[i]) <==> IsWhitespace(value[i]) {
      ToLowerAt(value, i);
      LowerCharWhitespace(value[i]);
    }
  }

  /** The query is already folded, so it is compared with the records' folded texts on equal terms. */
  lemma QueryIsFolded(value: string)
    ensures ToLower(QueryOf(value)) == QueryOf(value)
  {
    var folded := ToLower(value);
    var q := QueryOf(value);
    TrimShape(folded);
    var a := LeadingWhitespace(folded);
    ToLowerSlice(folded, a, a + |q|);
    ToLowerIdempotent(value);
  }

  class SearchWidget {
    /** `searchIndex` */
    var searchIndex: seq<IndexEntry>
    /** `searchTimeout`: the query of the pending debounced search, if any. */
    var searchTimeout: Option<string>
    /** `renderQueue` */
    var renderQueue: seq<IndexEntry>
    /** `isRendering` */
    var isRendering: bool
    /** The query the pending `requestAnimationFrame` callback was scheduled with, if any. */
    var nextFrame: Option<string>
    /** The children of the search results container. */
    var results: seq<ResultItem>
    /** The search field's value. */
    var inputValue: string
    /** Whether the navigation list, the results container, the clear button and the collapse-all button are displayed. */
    var navShown: bool
    var resultsShown: bool
    var clearShown: bool
    var collapseShown: bool
    /** The collapse-all button is optional on the page; the handlers skip it when it is missing. */
    const hasCollapseButton: bool

    /** The records are well formed; the navigation list and the results are shown one at a time. */
    ghost predicate Consistent()
      reads this
    {
      && AllWellFormed(searchIndex)
      && AllWellFormed(renderQueue)
      && navShown == !resultsShown
      && clearShown == resultsShown
      && (hasCollapseButton ==> collapseShown == navShown)
    }

    /**
     * A render loop is running exactly when an animation-frame callback is
     * pending, and records wait in the queue only while one is running.
     */
    ghost predicate Valid()
      reads this
    {
      Consistent() && (isRendering <==> nextFrame.Some?) && (!isRendering ==> renderQueue == [])
    }

    /** Nothing the user sees outside the results container changed, nor the index or the debounce timer. */
    twostate predicate PageUnchanged()
      reads this
    {
      && searchIndex == old(searchIndex)
      && inputValue == old(inputValue)
      && navShown == old(navShown) && resultsShown == old(resultsShown)
      && clearShown == old(clearShown) && collapseShown == old(collapseShown)
    }

    /**
     * What one call of `processRenderQueue(query)` does: on an empty queue it
     * stops the loop; otherwise it moves the first batch of the queue to the
     * results, in order, and schedules the next frame with the same query.
     */
    twostate predicate RenderStepped(query: string)
      reads this
    {
      && PageUnchanged()
      && searchTimeout == old(searchTimeout)
      && if old(renderQueue) == [] then
           && !isRendering && nextFrame == None
           && renderQueue == [] && results == old(results)
         else
           && isRendering && nextFrame == Some(query)
           && renderQueue == DropBatch(old(renderQueue))
           && results == old(results) + Rendered(TakeBatch(old(renderQueue)), query)
    }

    /**
     * What `performSearch(query)` does: it empties the results and the queue;
     * with no match it shows the placeholder and starts nothing; otherwise it
     * queues the matches, and renders the first batch at once unless a
     * render loop is already running, which then goes on with the query it
     * was started with.
     */
    twostate predicate SearchPerformed(query: string)
      reads this
    {
      var m := Matches(old(searchIndex), query);
      && PageUnchanged()
      && if m == [] then
           && results == [NoMatches] && renderQueue == []
           && isRendering == old(isRendering) && nextFrame == old(nextFrame)
         else if old(isRendering) then
           && results == [] && renderQueue == m
           && isRendering && nextFrame == old(nextFrame)
         else
           && results == Rendered(TakeBatch(m), query) && renderQueue == DropBatch(m)
           && isRendering && nextFrame == Some(query)
    }

    /** The module state when the script has loaded, with the page's default layout: navigation shown, results hidden. */
    constructor (hasCollapseButton: bool)
      ensures Valid()
      ensures searchIndex == [] && renderQueue == [] && results == [] && inputValue == []
      ensures !isRendering && searchTimeout == None && nextFrame == None
      ensures navShown && !resultsShown && !clearShown && collapseShown == hasCollapseButton
      ensures this.hasCollapseButton == hasCollapseButton
    {
      this.hasCollapseButton := hasCollapseButton;
      searchIndex, renderQueue, results, inputValue := [], [], [], [];
      isRendering, searchTimeout, nextFrame := false, None, None;
      navShown, resultsShown, clearShown, collapseShown := true, false, false, hasCollapseButton;
    }

    /** The `DOMContentLoaded` handler: pushes a record for every element that is not skipped, in document order. */
    method BuildIndex(elements: seq<Element>)
      requires Valid()
      modifies this
      ensures Valid()
      ensures searchIndex == old(searchIndex) + IndexEntries(elements)
      ensures inputValue == old(inputValue) && results == old(results) && renderQueue == old(renderQueue)
      ensures isRendering == old(isRendering) && searchTimeout == old(searchTimeout) && nextFrame == old(nextFrame)
      ensures navShown == old(navShown) && resultsShown == old(resultsShown)
      ensures clearShown == old(clearShown) && collapseShown == old(collapseShown)
    {
      IndexEntriesWellFormed(elements);
      ghost var base := searchIndex;
      var i := 0;
      while i < |elements|
        modifies this`searchIndex
        invariant 0 <= i <= |elements|
        invariant searchIndex == base + IndexEntries(elements[..i])
      {
        var el := elements[i];
        ghost var before := searchIndex;
        IndexableIffNotSkipped(el);
        IndexEntriesStep(base, elements, i);
        if !(Trim(el.text) == [] || (el.tag == DIV && el.childCount > 0)) {
          searchIndex := searchIndex + [MakeEntry(el, i)];
          assert searchIndex == before + Scan(el, i);
        } else {
          assert searchIndex == before + Scan(el, i);
        }
        i := i + 1;
      }
      assert elements[..i] == elements;
    }

    /**
     * The `keyup` handler: cancels the pending search; a non-empty query
     * switches to the results view and schedules a search for it, an empty
     * one clears the search and schedules nothing.
     */
    method KeyUp(value: string)
      requires Valid()
      modifies this
      ensures Valid()
      ensures searchIndex == old(searchIndex) && isRendering == old(isRendering) && nextFrame == old(nextFrame)
      ensures QueryOf(value) != [] ==>
        && searchTimeout == Some(QueryOf(value))
        && inputValue == value
        && !navShown && resultsShown && clearShown
        && collapseShown == (if hasCollapseButton then false else old(collapseShown))
        && renderQueue == old(renderQueue) && results == old(results)
      ensures QueryOf(value) == [] ==>
        && searchTimeout == None
        && inputValue == []
        && navShown && !resultsShown && !clearShown
        && collapseShown == (if hasCollapseButton then true else old(collapseShown))
        && renderQueue == [] && results == []
    {
      inputValue := value;
      searchTimeout := None;
      var query := QueryOf(value);
      if |query| > 0 {
        navShown, resultsShown, clearShown := false, true, true;
        if hasCollapseButton {
          collapseShown := false;
        }
      } else {
        ClearSearch();
        return;
      }
      searchTimeout := Some(query);
    }

    /** The debounce timer firing: runs the search it was scheduled with. */
    method FireSearchTimer()
      requires Valid()
      modifies this
      ensures Valid()
      ensures old(searchTimeout).None? ==>
        && PageUnchanged() && searchTimeout == None
        && renderQueue == old(renderQueue) && results == old(results)
        && isRendering == old(isRendering) && nextFrame == old(nextFrame)
      ensures old(searchTimeout).Some? ==> searchTimeout == None && SearchPerformed(old(searchTimeout).value)
    {
      if searchTimeout.Some? {
        var query := searchTimeout.value;
        searchTimeout := None;
        PerformSearch(query);
      }
    }

    /** `performSearch` */
    method PerformSearch(query: string)
      requires Valid()
      modifies this
      ensures Valid()
      ensures searchTimeout == old(searchTimeout)
      ensures SearchPerformed(query)
    {
      renderQueue := [];
      results := [];
      var matches := Matches(searchIndex, query);
      MatchesWellFormed(searchIndex, query);
      if |matches| == 0 {
        results := [NoMatches];
        return;
      }
      renderQueue := matches;
      if !isRendering {
        ProcessRenderQueue(query);
      }
    }

    /** `processRenderQueue`: one step of the render loop. */
    method ProcessRenderQueue(query: string)
      requires Consistent() && nextFrame.None?
      modifies this
      ensures Valid()
      ensures RenderStepped(query)
    {
      if |renderQueue| == 0 {
        isRendering := false;
        return;
      }
      isRendering := true;
      var n := Min(BatchSize, |renderQueue|);
      var batch := renderQueue[..n];
      renderQueue := renderQueue[n..];
      var fragment := RenderBatch(batch, query);
      results := results + fragment;
      nextFrame := Some(query);
    }

    /** The pending animation-frame callback running: `processRenderQueue` with the query it captured. */
    method AnimationFrame()
      requires Valid()
      modifies this
      ensures Valid()
      ensures old(nextFrame).None? ==>
        && PageUnchanged() && searchTimeout == old(searchTimeout)
        && renderQueue == old(renderQueue) && results == old(results)
        && isRendering == old(isRendering) && nextFrame == None
      ensures old(nextFrame).Some? ==> RenderStepped(old(nextFrame).value)
    {
      if nextFrame.Some? {
        var query := nextFrame.value;
        nextFrame := None;
        ProcessRenderQueue(query);
      }
    }

    /**
     * `clearSearch`, run by the clear button and by a keystroke that leaves
     * the query empty: empties the field, the queue and the results and
     * switches back to the navigation view. A running render loop and a
     * pending debounced search are left as they are.
     */
    method ClearSearch()
      requires Valid()
      modifies this
      ensures Valid()
      ensures inputValue == [] && renderQueue == [] && results == []
      ensures navShown && !resultsShown && !clearShown
      ensures collapseShown == (if hasCollapseButton then true else old(collapseShown))
      ensures searchIndex == old(searchIndex) && searchTimeout == old(searchTimeout)
      ensures isRendering == old(isRendering) && nextFrame == old(nextFrame)
    {
      inputValue := [];
      navShown, resultsShown, clearShown := true, false, false;
      if hasCollapseButton {
        collapseShown := true;
      }
      renderQueue := [];
      results := [];
    }
  }

  /**
   * The host running animation frames until none is pending, with no
   * keystroke in between: a running loop renders everything left in the
   * queue, in order, with the query it captured, and stops after exactly
   * `ceil(m / 20) + 1` frames for `m` queued records.
   */
  method RunFrames(w: SearchWidget) returns (frames: nat)
    requires w.Valid()
    modifies w
    ensures w.Valid() && !w.isRendering && w.nextFrame == None && w.renderQueue == []
    ensures old(w.nextFrame).None? ==> frames == 0 && w.results == old(w.results)
    ensures old(w.nextFrame).Some? ==>
      && frames == StepsToDrain(|old(w.renderQueue)|) + 1
      && w.results == old(w.results) + Rendered(old(w.renderQueue), old(w.nextFrame).value)
    ensures w.PageUnchanged() && w.searchTimeout == old(w.searchTimeout)
  {
    frames := 0;
    if w.nextFrame.None? {
      return;
    }
    var query := w.nextFrame.value;
    var queue := w.renderQueue;
    ghost var start := w.results;
    var steps: nat := 0;
    // While records wait, a frame is pending and renders the next batch.
    while w.renderQueue != []
      invariant w.Valid() && w.nextFrame == Some(query)
      invariant w.PageUnchanged() && w.searchTimeout == old(w.searchTimeout)
      invariant steps <= StepsToDrain(|queue|)
      invariant w.renderQueue == Remaining(queue, steps)
      invariant w.results == start + Rendered(Delivered(queue, steps), query)
      decreases |w.renderQueue|
    {
      DeliveredStep(queue, steps);
      RenderedAppend(Delivered(queue, steps), TakeBatch(Remaining(queue, steps)), query);
      RemainingNonEmptyIff(queue, steps);
      w.AnimationFrame();
      steps := steps + 1;
    }
    // The frame pending on the drained queue stops the loop.
    RemainingNonEmptyIff(queue, steps);
    DrainedAfterSteps(queue);
    w.AnimationFrame();
    frames := steps + 1;
  }

  /**
   * A debounced search followed by every animation frame it leads to. The
   * results end up as all the matches, in index order, and nothing from an
   * earlier search; but when a render loop was already running, the matches
   * are rendered with the query that loop was started with, not the new one.
   */
  method SearchAndRender(w: SearchWidget, query: string) returns (frames: nat)
    requires w.Valid()
    modifies w
    ensures w.Valid() && !w.isRendering && w.nextFrame == None && w.renderQueue == []
    ensures var m := Matches(old(w.searchIndex), query);
      && (m == [] ==> w.results == [NoMatches] && frames == (if old(w.isRendering) then 1 else 0))
      && (m != [] && old(w.isRendering) ==> w.results == Rendered(m, old(w.nextFrame).value))
      && (m != [] && !old(w.isRendering) ==> w.results == Rendered(m, query))
    ensures w.PageUnchanged() && w.searchTimeout == old(w.searchTimeout)
  {
    ghost var m := Matches(w.searchIndex, query);
    w.PerformSearch(query);
    if m != [] && old(w.isRendering) {
      assert w.results == [];
    } else if m != [] {
      RenderedAppend(TakeBatch(m), DropBatch(m), query);
    }
    frames := RunFrames(w);
  }
}
