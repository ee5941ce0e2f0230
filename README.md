# LocalDocs search widget, modelled in Dafny

The widget in `script.js` adds an incremental search box to a static
documentation page. When the page loads, it builds an index of the text of
the page's content elements, once. Each keystroke is debounced; the search
then filters the index by substring containment. The matches are rendered
into the results container 20 at a time, one batch per animation frame.
Each result shows its section title and an excerpt of 25 characters on
either side of the first occurrence of the query, framed by `...`. A clear
action (the clear button, or a keystroke that leaves the query empty)
empties the queue and the results and brings the navigation list back.

The model has seven modules:

- `Wrappers` holds `Option`.
- `Text` holds the JavaScript string operations the widget uses: a
  length-preserving `toLowerCase`, `trim` over the ECMAScript whitespace and
  line-terminator set, `includes`, `indexOf` (which gives -1 when the query
  does not occur) and `substring` (which clamps and swaps its arguments).
- `Indexer` turns the document-order list of candidate elements into index
  records.
- `Matcher` is the `filter` over the index.
- `Snippets` is the excerpt arithmetic.
- `Render` covers one batch of the render loop: `splice(0, 20)`, the items
  appended, and where a run of steps ends.
- `Widget` holds the module state as a class, `SearchWidget`. Its methods
  are the event handlers.

The DOM is abstracted:

- An element is its tag, its `textContent`, its number of element children
  and its enclosing `<section>` (with the text of that section's first h1,
  h2 or h3, if there is one).
- A record's reference to its element is the element's position in the
  document-order candidate list (`handle`).
- The results container is a sequence of `ResultItem`s. A result is the
  record it was made from together with the query it was rendered with. Its
  title, excerpt and click target are functions of those two.
- The display state of the navigation list, the results container, the
  clear button and the optional collapse-all button is four booleans.

Timers are modelled by what they capture:

- `searchTimeout` holds the query of the pending debounced search.
- `nextFrame` holds the query of the pending `requestAnimationFrame`
  callback.
- The host firing a callback is an explicit call of `FireSearchTimer` or
  `AnimationFrame`.

`SearchWidget.Valid` holds three things:

- A render loop is running exactly when a frame is pending.
- Records wait in the queue only while a loop is running.
- The records are well formed, and the navigation list and the results are
  never shown together.

The code keeps the query a running loop was started with (script.js:139).
A new search that replaces `renderQueue` while the loop runs
(script.js:83-88) therefore has its matches rendered with the old query.
`SearchPerformed` and `SearchAndRender` state this behaviour as it is.

Three facts about the code shape the model:

- The code has no generation counter: a new search supersedes a running
  one only by replacing `renderQueue` and emptying the results
  (script.js:71-72, 83).
- `clearSearch` empties the input field on every path, including the
  empty-query keystroke (script.js:145).
- `clearSearch` does not cancel a pending debounced search, and it does not
  stop a running render loop (script.js:144-154). The loop stops on its
  next frame, because the queue is then empty.

## Model

| member | source | states |
|---|---|---|
| Text.LowerChar | script.js:36 | the fold maps A-Z to a-z and leaves every other character alone, so no result is upper case |
| Text.TrimEmptyIffBlank | script.js:26 | `trim()` gives the empty string exactly when the text is entirely whitespace |
| Text.ToLower | script.js:36 | `toLowerCase` keeps the length (so `textLower` and `originalText` line up position for position) |
| Text.Trim | script.js:50 | `trim` never lengthens a string |
| Text.TrimShape | script.js:50 | a non-empty trimmed string neither starts nor ends with whitespace, it is the slice of the input after the leading whitespace, and what was cut off at both ends is whitespace |
| Text.TrimCutsWhitespace | script.js:50 | the prefix and the suffix `trim` removes are entirely whitespace |
| Text.Substring | script.js:114 | `substring` never returns more than the string; for in-range, ordered arguments it is exactly that slice |
| Text.IndexFrom | script.js:111 | the search from a position returns -1 or a position at or after it, within the string |
| Text.IndexOf | script.js:111 | `indexOf` returns -1 or a position within the string |
| Text.IndexFromFirst | script.js:111 | the search from a position returns an occurrence at or after it, with none before it, and returns -1 exactly when there is no occurrence at or after it |
| Text.IndexOfFirst | script.js:111 | `indexOf` returns -1 exactly when `includes` is false; otherwise it returns the first occurrence |
| Indexer.IndexableIffNotSkipped | script.js:26 | an element is indexed exactly when the skip test (`!rawText.trim()` or a DIV with children) is false |
| Indexer.SectionTitle | script.js:29-38 | 'General' outside any section; 'Unknown Section' when the section has no h1-h3 or its text is empty; otherwise the heading text; never empty |
| Indexer.MakeEntry | script.js:34-39 | the pushed record holds the element's handle, its text, the fold of its text (of the same length) and its section title |
| Indexer.Scan | script.js:26-39 | one element contributes at most one record |
| Indexer.IndexEntries | script.js:21-40 | the `forEach` over the candidates never produces more records than elements; its meaning is stated by IndexEntrySound, IndexEntryComplete and IndexEntriesOrdered |
| Indexer.IndexEntrySound | script.js:21-39 | every record comes from an indexable element of the list and is exactly the record made from it |
| Indexer.IndexEntryComplete | script.js:21-39 | every indexable element has a record |
| Indexer.IndexedIff | script.js:21-26 | an element has a record if and only if its trimmed text is non-empty and it is not a DIV with children |
| Indexer.IndexEntriesOrdered | script.js:19-21 | records appear in document order: their handles strictly increase |
| Indexer.IndexEntriesWellFormed | script.js:36-37 | every record's `textLower` is the fold of its `originalText`, so the two have the same length |
| Matcher.Matches | script.js:75 | the filter never returns more records than the index holds |
| Matcher.MatchesMembers | script.js:75 | a record is a match exactly when it is in the index and its `textLower` contains the query |
| Matcher.MatchesSubsequence | script.js:75 | the matches are a subsequence of the index, so the index order is kept |
| Matcher.MatchesAppend | script.js:75 | filtering a concatenation filters each part |
| Matcher.MatchesEmptyIff | script.js:75-77 | there are no matches exactly when no record contains the query |
| Matcher.MatchesWellFormed | script.js:75 | the matches of a well-formed index are well formed |
| Matcher.MatchesHandlesIncrease | script.js:75 | filtering keeps strictly increasing handles strictly increasing |
| Matcher.MatchesInDocumentOrder | script.js:75 | the matches of the built index are in document order |
| Snippets.SnippetWindow | script.js:111-113 | `0 <= snippetStart <= snippetEnd <= originalText.length` when the two texts have the same length, and the window spans at most the query plus 50 characters |
| Snippets.Snippet | script.js:114 | the excerpt between its two "..." markers; its shape is stated by SnippetShape and SnippetShowsMatch |
| Snippets.SnippetShape | script.js:114 | the snippet starts and ends with "..." unconditionally, holds exactly the window of the original text between them, and is bounded in length |
| Snippets.WindowAroundMatch | script.js:111-113 | for a matching record the window contains the first occurrence, starts at 25 characters before it or at 0, whichever is later, and ends at 25 characters after it or at the end of the text, whichever is earlier |
| Snippets.SnippetShowsMatch | script.js:110-114 | for a matching well-formed record, the folded snippet shows the query right after the left context |
| Snippets.SnippetWithoutMatch | script.js:111-114 | for a record the query does not occur in, `indexOf` is -1, so the excerpt is the first `query.length + 24` characters |
| Render.Rendered | script.js:106-132 | one item per record of the batch; RenderedAt states what each item shows |
| Render.Title | script.js:117 | a result's title is its record's section title |
| Render.Excerpt | script.js:118 | a result's excerpt is the snippet of its record for the query it was rendered with |
| Render.Target | script.js:121-122 | a click on a result scrolls to its record's element |
| Render.RenderedAt | script.js:106-122 | item k of a rendered batch is a result for record k: it shows its section title and its snippet, and a click on it scrolls to its element |
| Render.RenderedShowsMatch | script.js:110-118 | every result rendered for a matching record shows the query in its folded excerpt |
| Render.RenderedAppend | script.js:131-135 | rendering two batches one after the other renders their concatenation |
| Render.RenderBatch | script.js:102-132 | the `forEach` loop builds one result per record of the batch, in order |
| Render.TakeBatch | script.js:103-104 | `splice(0, 20)` returns the first min(20, length) records of the queue, and at least one when the queue is not empty |
| Render.DropBatch | script.js:104 | what `splice` returns, followed by what it leaves, is the old queue |
| Render.RemainingIsSuffix | script.js:104 | after k steps the queue has lost exactly its first min(length, 20k) records |
| Render.DeliveredIsPrefix | script.js:104 | those k steps delivered exactly the queue's first min(length, 20k) records, in order |
| Render.DeliveredThenRemaining | script.js:104 | nothing is lost or repeated: what was delivered, followed by what remains, is the queue |
| Render.DeliveredStep | script.js:104 | one more step delivers the next batch of what remained |
| Render.StepsToDrain | script.js:103 | ceil(m / 20) steps deliver at least m records, and one step fewer does not |
| Render.DrainedAfterSteps | script.js:93-104 | a queue of m records is empty after exactly ceil(m / 20) steps, and those steps delivered all of it |
| Render.RemainingNonEmptyIff | script.js:93-104 | records remain after k steps exactly when k < ceil(m / 20) |
| Widget.QueryOf | script.js:50 | the query is the field's value folded and trimmed, never longer than the value |
| Widget.QueryEmptyIffBlank | script.js:50-53 | the query is empty exactly when the field holds nothing but whitespace |
| Widget.QueryIsFolded | script.js:50 | the query is already folded, so it is compared with the folded record texts on equal terms |
| Widget.SearchWidget.constructor | script.js:10-13 | the module state at load: empty index, queue and results, no timer, not rendering |
| Widget.SearchWidget.BuildIndex | script.js:17-42 | the loop appends exactly the records of the indexable elements, in document order, keeps the state valid, and changes nothing else |
| Widget.SearchWidget.KeyUp | script.js:47-66 | a non-empty query shows the results view and schedules a search for it; an empty one clears the search and schedules nothing; a pending search is always cancelled |
| Widget.SearchWidget.FireSearchTimer | script.js:63-65 | the debounce timer runs the search for the query it captured, and then it is no longer pending |
| Widget.SearchWidget.PerformSearch | script.js:69-89 | no match gives the single placeholder, an empty queue and no new render step; otherwise the matches are queued, and the first batch is rendered at once unless a loop is already running, which keeps its old query |
| Widget.SearchWidget.ProcessRenderQueue | script.js:92-140 | an empty queue stops the loop and changes nothing else; otherwise the first batch moves from the queue to the end of the results, in order, and the next frame is scheduled with the same query |
| Widget.SearchWidget.AnimationFrame | script.js:139 | the pending frame runs one render step with the query it captured |
| Widget.SearchWidget.ClearSearch | script.js:144-154 | the field, the queue and the results are empty; the navigation is shown, the results and the clear button are hidden, and the collapse-all button comes back if present |
| Widget.RunFrames | script.js:92-140 | a running loop renders everything left in the queue, in order, with its captured query, and stops after exactly ceil(m / 20) + 1 frames; the index, the field, the display flags and the debounce timer are untouched |
| Widget.SearchAndRender | script.js:69-140 | after a search and its frames, the results are the placeholder, or all the matches in index order rendered with the running loop's query (or the new query if none was running); the index, the field, the display flags and the debounce timer are untouched |

## Left out

- DOM construction (`createElement`, the `innerHTML` template, document fragments, `querySelectorAll`, `closest`): their results are plain sequences and records.
- The click handler's visual effects (`scrollIntoView`, the highlight class, the forced reflow and its 2000 ms timer, script.js:121-129): a result records only the element a click scrolls to.
- Real timing: the 300 ms debounce and the animation-frame schedule are explicit later calls. `clearTimeout` is setting `searchTimeout` to `None`.
- Strings are sequences of Unicode scalar values, while JavaScript counts UTF-16 code units in `.length`, `indexOf` and `substring` (script.js:111-114). On text with characters outside the Basic Multilingual Plane (emoji, for instance) the 25-character window counts differently, and a `substring` that splits a surrogate pair has no counterpart here.
- `Text.LowerChar`: folds only A-Z. Full Unicode `toLowerCase` depends on the JavaScript runtime and can change a string's length.
- `textContent` and `innerText` are taken as given strings. The `|| ""` fallback on a missing `textContent` is not modelled.
- The initial display layout of the page (navigation shown, results, clear button hidden) is assumed by the constructor; the page's HTML and CSS are not part of this model.
- `scrollToId`, the collapsible sidebar and the collapse-all handler (script.js:156-189): they are DOM toggles with no logic of their own. `console.log` calls are left out too.
- HTML escaping: the model does not treat the title and snippet as markup. The code interpolates them into `innerHTML` unescaped.
