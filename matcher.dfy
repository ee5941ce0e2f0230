/** The search itself: the records of the index whose folded text contains the query, kept in index order. */
module Matcher {
  import opened Text
  import opened Indexer

  /** Does this record's folded text contain the query? */
  predicate IsMatch(e: IndexEntry, query: string) {
    Contains(e.textLower, query)
  }

  /** The records of `index` that match, in index order. */
  function Matches(index: seq<IndexEntry>, query: string): (r: seq<IndexEntry>)
    ensures |r| <= |index|
  {
    if index == [] then []
    else (if IsMatch(index[0], query) then [index[0]] else []) + Matches(index[1..], query)
  }

  /** A record is in the match list exactly when it is in the index and contains the query. */
  lemma {:induction false} MatchesMembers(index: seq<IndexEntry>, query: string)
    ensures forall e :: e in Matches(index, query) <==> e in index && IsMatch(e, query)
  {
    if index != [] {
      MatchesMembers(index[1..], query);
      assert index == [index[0]] + index[1..];
    }
  }

  /** `a` is obtained from `b` by deleting elements: `a` keeps `b`'s order. */
  predicate IsSubsequence<T(==)>(a: seq<T>, b: seq<T>)
    decreases |b|
  {
    if a == [] then true
    else if b == [] then false
    else if a[0] == b[0] then IsSubsequence(a[1..], b[1..])
    else IsSubsequence(a, b[1..])
  }

  /** The match list keeps the order of the index. */
  lemma {:induction false} MatchesSubsequence(index: seq<IndexEntry>, query: string)
    ensures IsSubsequence(Matches(index, query), index)
  {
    if index != [] {
      MatchesSubsequence(index[1..], query);
      var r := Matches(index, query);
      if IsMatch(index[0], query) {
        assert r[0] == index[0] && r[1..] == Matches(index[1..], query);
      } else {
        assert r == Matches(index[1..], query);
        SubsequenceSkip(r, index);
      }
    }
  }

  /** Dropping a first element of `b` that `a` does not need keeps `a` a subsequence. */
  lemma {:induction false} SubsequenceSkip<T>(a: seq<T>, b: seq<T>)
    requires b != [] && IsSubsequence(a, b[1..])
    ensures IsSubsequence(a, b)
    decreases |b|, 0
  {
    if a != [] && a[0] == b[0] {
      SubsequenceTail(a, b[1..]);
    }
  }

  /** Dropping the first element of a subsequence leaves a subsequence. */
  lemma {:induction false} SubsequenceTail<T>(a: seq<T>, b: seq<T>)
    requires a != [] && IsSubsequence(a, b)
    ensures IsSubsequence(a[1..], b)
    decreases |b|, 1
  {
    if a[0] == b[0] {
      SubsequenceSkip(a[1..], b);
    } else {
      SubsequenceTail(a, b[1..]);
      SubsequenceSkip(a[1..], b);
    }
  }

  /** Filtering a concatenation filters each part. */
  lemma {:induction false} MatchesAppend(a: seq<IndexEntry>, b: seq<IndexEntry>, query: string)
    ensures Matches(a + b, query) == Matches(a, query) + Matches(b, query)
  {
    if a != [] {
      assert (a + b)[1..] == a[1..] + b;
      MatchesAppend(a[1..], b, query);
    } else {
      assert a + b == b;
    }
  }

  /** Nothing matches exactly when no record of the index contains the query. */
  lemma MatchesEmptyIff(index: seq<IndexEntry>, query: string)
    ensures Matches(index, query) == [] <==> forall k :: 0 <= k < |index| ==> !IsMatch(index[k], query)
  {
    MatchesMembers(index, query);
    if Matches(index, query) != [] {
      var e := Matches(index, query)[0];
      assert e in Matches(index, query);
    }
  }

  /** The matches of a well-formed index are well formed. */
  lemma MatchesWellFormed(index: seq<IndexEntry>, query: string)
    requires AllWellFormed(index)
    ensures AllWellFormed(Matches(index, query))
  {
    MatchesMembers(index, query);
  }

  predicate HandlesIncrease(entries: seq<IndexEntry>) {
    forall j, k :: 0 <= j < k < |entries| ==> entries[j].handle < entries[k].handle
  }

  /** The matches come out in document order when the index is in document order. */
  lemma {:induction false} MatchesHandlesIncrease(index: seq<IndexEntry>, query: string)
    requires HandlesIncrease(index)
    ensures HandlesIncrease(Matches(index, query))
  {
    if index != [] {
      var rest := Matches(index[1..], query);
      MatchesHandlesIncrease(index[1..], query);
      MatchesMembers(index[1..], query);
      forall k | 0 <= k < |rest| ensures index[0].handle < rest[k].handle {
        assert rest[k] in index[1..];
      }
    }
  }

  /** The matches of the index built from `els` are in document order. */
  lemma MatchesInDocumentOrder(els: seq<Element>, query: string)
    ensures HandlesIncrease(Matches(IndexEntries(els), query))
  {
    IndexEntriesOrdered(els);
    MatchesHandlesIncrease(IndexEntries(els), query);
  }
}
