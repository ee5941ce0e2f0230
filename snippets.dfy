/**
 * The excerpt shown under each result: up to 25 characters of context on
 * each side of the first occurrence of the query, framed by "..." on both
 * sides whether or not anything was cut off.
 */
module Snippets {
  import opened Text
  import opened Indexer

  /** Characters of context kept on each side of the match. */
  const Context := 25

  const Ellipsis := "..."

  /** `snippetStart` and `snippetEnd`. */
  datatype Window = Window(start: int, end: int)

  /**
   * The window the render loop computes for `e`: `max(0, index - 25)` to
   * `min(originalText.length, index + query.length + 25)`, where `index` is
   * the first position of the query in the folded text, offsets read in the
   * original text (hence the two texts must have the same length).
   */
  function SnippetWindow(e: IndexEntry, query: string): (w: Window)
    ensures 0 <= w.start
    ensures |e.textLower| == |e.originalText| ==> w.start <= w.end <= |e.originalText|
    ensures w.end - w.start <= |query| + 2 * Context
  {
    var index := IndexOf(e.textLower, query);
    Window(Max(0, index - Context), Min(|e.originalText|, index + |query| + Context))
  }

  /** The excerpt: the window of the original text, read with `substring`, between two ellipsis markers. */
  function Snippet(e: IndexEntry, query: string): string {
    var w := SnippetWindow(e, query);
    Ellipsis + Substring(e.originalText, w.start, w.end) + Ellipsis
  }

  /**
   * The snippet starts and ends with "...", whether or not the text was cut
   * there, and between them holds exactly the window of the original text,
   * so it is never longer than the query plus 50 characters of context and
   * the two markers.
   */
  lemma SnippetShape(e: IndexEntry, query: string)
    requires |e.textLower| == |e.originalText|
    ensures var r := Snippet(e, query); var w := SnippetWindow(e, query);
      && |r| >= 2 * |Ellipsis| && r[..|Ellipsis|] == Ellipsis && r[|r| - |Ellipsis|..] == Ellipsis
      && r[|Ellipsis|..|r| - |Ellipsis|] == e.originalText[w.start..w.end]
      && |r| <= |query| + 2 * Context + 2 * |Ellipsis|
  {
    var w := SnippetWindow(e, query);
    var inner := e.originalText[w.start..w.end];
    var r := Snippet(e, query);
    assert r == Ellipsis + inner + Ellipsis;
    SliceOfMiddle(Ellipsis, inner, Ellipsis, |Ellipsis|, |r| - |Ellipsis|);
  }

  /**
   * When the record matches, the window holds the first occurrence and is
   * cut at 25 characters of context on each side unless the text ends first.
   */
  lemma WindowAroundMatch(e: IndexEntry, query: string)
    requires |e.textLower| == |e.originalText| && Contains(e.textLower, query)
    ensures var i := IndexOf(e.textLower, query); var w := SnippetWindow(e, query);
      && OccursAt(e.textLower, query, i)
      && w.start <= i && i + |query| <= w.end
      && (w.start == 0 || w.start == i - Context)
      && (w.end == |e.originalText| || w.end == i + |query| + Context)
      && i - Context <= w.start && w.end <= i + |query| + Context
  {
    IndexOfFirst(e.textLower, query);
  }

  /** Inside a framed excerpt of `text`, position `i` of `text` sits `|Ellipsis| - start` further on. */
  lemma FramedSlice(text: string, start: int, end: int, i: int, n: nat)
    requires 0 <= start <= i && i + n <= end <= |text|
    ensures var p := |Ellipsis| + i - start;
      (Ellipsis + text[start..end] + Ellipsis)[p..p + n] == text[i..i + n]
  {
    var inner := text[start..end];
    var p := |Ellipsis| + i - start;
    var x := i - start;
    SliceOfMiddle(Ellipsis, inner, Ellipsis, p, p + n);
    SliceOfSlice(text, start, end, x, x + n);
    assert start + x == i;
  }

  /** An occurrence inside the window shows, folded, inside the framed excerpt. */
  lemma FoldedExcerptShows(text: string, lower: string, start: int, end: int, i: int, query: string)
    requires lower == ToLower(text) && OccursAt(lower, query, i)
    requires 0 <= start <= i && i + |query| <= end <= |text|
    ensures OccursAt(ToLower(Ellipsis + text[start..end] + Ellipsis), query, |Ellipsis| + i - start)
  {
    var s := Ellipsis + text[start..end] + Ellipsis;
    var p := |Ellipsis| + i - start;
    var piece := text[i..i + |query|];
    FramedSlice(text, start, end, i, |query|);
    assert ToLower(piece) == query by {
      ToLowerSlice(text, i, i + |query|);
    }
    ToLowerSlice(s, p, p + |query|);
  }

  /** When the record matches, the folded excerpt shows the query right after the left context. */
  lemma SnippetShowsMatch(e: IndexEntry, query: string)
    requires WellFormed(e) && Contains(e.textLower, query)
    ensures OccursAt(ToLower(Snippet(e, query)), query, |Ellipsis| + IndexOf(e.textLower, query) - SnippetWindow(e, query).start)
  {
    var i := IndexOf(e.textLower, query);
    var w := SnippetWindow(e, query);
    WindowAroundMatch(e, query);
    assert Snippet(e, query) == Ellipsis + e.originalText[w.start..w.end] + Ellipsis;
    FoldedExcerptShows(e.originalText, e.textLower, w.start, w.end, i, query);
  }

  /**
   * When the query does not occur in the record (a record rendered against a
   * query it was not matched with), `indexOf` gives -1 and the excerpt is the
   * first `query.length + 24` characters of the text.
   */
  lemma SnippetWithoutMatch(e: IndexEntry, query: string)
    requires |e.textLower| == |e.originalText| && !Contains(e.textLower, query)
    ensures SnippetWindow(e, query) == Window(0, Min(|e.originalText|, |query| + Context - 1))
    ensures Snippet(e, query) == Ellipsis + e.originalText[..Min(|e.originalText|, |query| + Context - 1)] + Ellipsis
  {
    IndexOfFirst(e.textLower, query);
  }
}
