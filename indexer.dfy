/**
 * The search index built once when the page has loaded: one record per
 * candidate content element that carries text, in document order.
 */
module Indexer {
  import opened Wrappers
  import opened Text

  /** The tags the builder selects: `p, h1, h2, h3, h4, li, div`. */
  datatype Tag = P | H1 | H2 | H3 | H4 | LI | DIV

  /** An element's closest enclosing `<section>`; `heading` is the rendered text of its first h1, h2 or h3, if it has one. */
  datatype Section = Section(heading: Option<string>)

  /** A candidate element as the builder sees it: its tag, its `textContent`, its number of element children and its enclosing section. */
  datatype Element = Element(tag: Tag, text: string, childCount: nat, section: Option<Section>)

  /**
   * One index record. `handle` identifies the element it was made from: its
   * position in the document-order list of candidates.
   */
  datatype IndexEntry = IndexEntry(handle: nat, textLower: string, originalText: string, sectionTitle: string)

  /** The record's folded text is the fold of its original text. */
  predicate WellFormed(e: IndexEntry) {
    e.textLower == ToLower(e.originalText)
  }

  predicate AllWellFormed(entries: seq<IndexEntry>) {
    forall e :: e in entries ==> WellFormed(e)
  }

  /**
   * An element is indexed unless its text trims to nothing or it is a `div`
   * with element children. A text trims to nothing exactly when it is blank
   * (Text.TrimEmptyIffBlank), which is the form used here.
   */
  predicate Indexable(el: Element) {
    !IsBlank(el.text) && !(el.tag == DIV && el.childCount > 0)
  }

  /** The skip test in the builder's own terms: the trimmed text is empty, or the element is a DIV with element children. */
  lemma IndexableIffNotSkipped(el: Element)
    ensures Indexable(el) <==> !(Trim(el.text) == [] || (el.tag == DIV && el.childCount > 0))
  {
    TrimEmptyIffBlank(el.text);
  }

  /**
   * The section title: `'General'` outside any section, the heading's text
   * inside one, and `'Unknown Section'` when that heading is missing or its
   * text is empty (the `||` fallback sees both as falsy).
   */
  function SectionTitle(section: Option<Section>): (r: string)
    ensures section.None? ==> r == "General"
    ensures section.Some? && (section.value.heading.None? || section.value.heading.value == []) ==> r == "Unknown Section"
    ensures section.Some? && section.value.heading.Some? && section.value.heading.value != [] ==> r == section.value.heading.value
    ensures r != []
  {
    var found := if section.None? then Some("General") else section.value.heading;
    if found.None? || found.value == [] then "Unknown Section" else found.value
  }

  /** The record pushed for the element at position `handle`. */
  function MakeEntry(el: Element, handle: nat): (e: IndexEntry)
    ensures WellFormed(e) && |e.textLower| == |e.originalText|
    ensures e.handle == handle && e.originalText == el.text && e.sectionTitle == SectionTitle(el.section)
  {
    IndexEntry(handle, ToLower(el.text), el.text, SectionTitle(el.section))
  }

  /** What scanning the element at position `handle` contributes: its record, or nothing when it is skipped. */
  function Scan(el: Element, handle: nat): (r: seq<IndexEntry>)
    ensures |r| <= 1
  {
    if Indexable(el) then [MakeEntry(el, handle)] else []
  }

  /** The index a scan of `els` produces, element by element. */
  function IndexEntries(els: seq<Element>): (r: seq<IndexEntry>)
    ensures |r| <= |els|
  {
    if els == [] then []
    else
      var n := |els| - 1;
      IndexEntries(els[..n]) + Scan(els[n], n)
  }

  /** Every record comes from an indexable element and is the record made from it. */
  lemma {:induction false} IndexEntrySound(els: seq<Element>, k: int)
    requires 0 <= k < |IndexEntries(els)|
    ensures IndexEntries(els)[k].handle < |els|
    ensures Indexable(els[IndexEntries(els)[k].handle])
    ensures IndexEntries(els)[k] == MakeEntry(els[IndexEntries(els)[k].handle], IndexEntries(els)[k].handle)
  {
    var n := |els| - 1;
    var prefix := IndexEntries(els[..n]);
    if k < |prefix| {
      IndexEntrySound(els[..n], k);
      var h := prefix[k].handle;
      assert IndexEntries(els)[k] == prefix[k];
      assert els[..n][h] == els[h];
    } else {
      assert IndexEntries(els)[k] == Scan(els[n], n)[0];
    }
  }

  /** Records appear in document order: their handles strictly increase. */
  lemma {:induction false} IndexEntriesOrdered(els: seq<Element>)
    ensures forall j, k :: 0 <= j < k < |IndexEntries(els)| ==> IndexEntries(els)[j].handle < IndexEntries(els)[k].handle
  {
    if els != [] {
      var n := |els| - 1;
      var prefix := IndexEntries(els[..n]);
      IndexEntriesOrdered(els[..n]);
      forall j | 0 <= j < |prefix| ensures prefix[j].handle < n {
        IndexEntrySound(els[..n], j);
      }
    }
  }

  /** Every indexable element has a record. */
  lemma {:induction false} IndexEntryComplete(els: seq<Element>, i: int)
    requires 0 <= i < |els| && Indexable(els[i])
    ensures exists k :: 0 <= k < |IndexEntries(els)| && IndexEntries(els)[k].handle == i
  {
    var n := |els| - 1;
    var prefix := IndexEntries(els[..n]);
    if i == n {
      assert IndexEntries(els)[|prefix|].handle == i;
    } else {
      IndexEntryComplete(els[..n], i);
      var k :| 0 <= k < |prefix| && prefix[k].handle == i;
      assert IndexEntries(els)[k].handle == i;
    }
  }

  /** An element has a record if and only if it is indexable. */
  lemma IndexedIff(els: seq<Element>, i: int)
    requires 0 <= i < |els|
    ensures (exists k :: 0 <= k < |IndexEntries(els)| && IndexEntries(els)[k].handle == i) <==> Indexable(els[i])
  {
    if Indexable(els[i]) {
      IndexEntryComplete(els, i);
    } else {
      forall k | 0 <= k < |IndexEntries(els)| ensures IndexEntries(els)[k].handle != i {
        IndexEntrySound(els, k);
      }
    }
  }

  /** Every record of the index is well formed, so its two texts have the same length. */
  lemma {:induction false} IndexEntriesWellFormed(els: seq<Element>)
    ensures AllWellFormed(IndexEntries(els))
  {
    forall e | e in IndexEntries(els) ensures WellFormed(e) {
      var k :| 0 <= k < |IndexEntries(els)| && IndexEntries(els)[k] == e;
      IndexEntrySound(els, k);
    }
  }

  /** Scanning one more element appends at most its record: the shape the build loop follows. */
  lemma IndexEntriesStep(base: seq<IndexEntry>, els: seq<Element>, i: int)
    requires 0 <= i < |els|
    ensures base + IndexEntries(els[..i + 1]) == base + IndexEntries(els[..i]) + Scan(els[i], i)
  {
    assert els[..i + 1][..i] == els[..i];
  }
}
