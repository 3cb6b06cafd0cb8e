/** The title search of the notes dashboard: a note is shown when it has a title and the
    lower-cased title contains the lower-cased search text. Lower-casing is ASCII. */
module Search {
  import opened Wrappers
  import opened Text
  import opened Cache

  /** The filter's test: a defined title whose lower-case form contains the lower-case query. */
  predicate Matches(n: CachedNote, query: string) {
    n.title.Some? && Contains(Lower(n.title.value), Lower(query))
  }

  /** `a` is obtained from `b` by deleting elements, keeping the order of the rest. */
  predicate Subsequence<T(==)>(a: seq<T>, b: seq<T>)
    decreases |b|
  {
    if |a| == 0 then true
    else if |b| == 0 then false
    else if a[0] == b[0] then Subsequence(a[1..], b[1..])
    else Subsequence(a, b[1..])
  }

  /** The filtered list: an order-preserving selection of the notes, holding only matching
      notes and every occurrence of a matching note. */
  function FilterByTitle(notes: seq<CachedNote>, query: string): (r: seq<CachedNote>)
    ensures Subsequence(r, notes)
    ensures forall i :: 0 <= i < |r| ==> Matches(r[i], query)
    ensures forall i :: 0 <= i < |notes| && Matches(notes[i], query) ==> notes[i] in r
    ensures |r| <= |notes|
  {
    if |notes| == 0 then []
    else
      var rest := FilterByTitle(notes[1..], query);
      if Matches(notes[0], query) then [notes[0]] + rest else rest
  }

  /** The filter keeps every matching note exactly as often as the notes hold it, and no other
      note: duplicates survive. */
  lemma {:induction false} FilterCounts(notes: seq<CachedNote>, query: string)
    ensures var r := FilterByTitle(notes, query);
            forall x {:trigger multiset(r)[x]} {:trigger multiset(notes)[x]} ::
              multiset(r)[x] == if Matches(x, query) then multiset(notes)[x] else 0
    decreases |notes|
  {
    if |notes| > 0 {
      FilterCounts(notes[1..], query);
      var rest := FilterByTitle(notes[1..], query);
      assert notes == [notes[0]] + notes[1..];
      assert multiset(notes) == multiset{notes[0]} + multiset(notes[1..]);
      assert multiset([notes[0]] + rest) == multiset{notes[0]} + multiset(rest);
    }
  }

  /** Two queries equal up to case select the same notes. */
  lemma {:induction false} FilterIgnoresCase(notes: seq<CachedNote>, q1: string, q2: string)
    requires Lower(q1) == Lower(q2)
    ensures FilterByTitle(notes, q1) == FilterByTitle(notes, q2)
    decreases |notes|
  {
    if |notes| > 0 {
      FilterIgnoresCase(notes[1..], q1, q2);
    }
  }

  /** In particular, searching for the lower-cased query is the same search. */
  lemma FilterLowerQuery(notes: seq<CachedNote>, query: string)
    ensures FilterByTitle(notes, Lower(query)) == FilterByTitle(notes, query)
  {
    LowerIdempotent(query);
    FilterIgnoresCase(notes, Lower(query), query);
  }

  /** The notes that have a title at all, in order. */
  function Titled(notes: seq<CachedNote>): seq<CachedNote> {
    if |notes| == 0 then []
    else if notes[0].title.Some? then [notes[0]] + Titled(notes[1..])
    else Titled(notes[1..])
  }

  /** The empty search keeps exactly the notes with a defined title, empty titles included. */
  lemma {:induction false} EmptySearchKeepsTitled(notes: seq<CachedNote>)
    ensures FilterByTitle(notes, "") == Titled(notes)
    decreases |notes|
  {
    if |notes| > 0 {
      EmptySearchKeepsTitled(notes[1..]);
      if notes[0].title.Some? {
        assert "" <= Lower(notes[0].title.value)[0..];
      }
    }
  }

  /** Concrete instances: a missing title never matches, an empty title matches the empty
      search, and "NoTe" finds "My note". */
  lemma SearchExamples()
    ensures FilterByTitle([CachedNote("1", None, Some("x"))], "") == []
    ensures FilterByTitle([CachedNote("2", Some(""), Some("x"))], "") == [CachedNote("2", Some(""), Some("x"))]
    ensures FilterByTitle([CachedNote("3", Some("My note"), Some("x"))], "NoTe") == [CachedNote("3", Some("My note"), Some("x"))]
  {
    assert "" <= Lower("")[0..];
    assert Lower("NoTe") == "note";
    assert Lower("My note") == "my note";
    assert "note" <= "my note"[3..];
  }
}
