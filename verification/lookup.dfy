/** First-match search, as done by `Array.prototype.find` on the client and by
    a `findOne` query over a collection in its natural (insertion) order. */
module Lookup {
  import opened Wrappers

  /** The index of the first element satisfying `p`, or None when there is none. */
  function First<T>(s: seq<T>, p: T -> bool): (r: Option<nat>)
    ensures r.Some? ==> r.value < |s| && p(s[r.value])
    ensures r.Some? ==> forall j :: 0 <= j < r.value ==> !p(s[j])
    ensures r.None? ==> forall j :: 0 <= j < |s| ==> !p(s[j])
  {
    if |s| == 0 then None
    else if p(s[0]) then Some(0)
    else match First(s[1..], p)
      case None => None
      case Some(i) => Some(i + 1)
  }

  /** Appending an element leaves an existing first match where it was, and otherwise
      makes the new element the first match exactly when it satisfies `p`. */
  lemma FirstAppend<T>(s: seq<T>, x: T, p: T -> bool)
    ensures First(s, p).Some? ==> First(s + [x], p) == First(s, p)
    ensures First(s, p).None? && p(x) ==> First(s + [x], p) == Some(|s|)
    ensures First(s, p).None? && !p(x) ==> First(s + [x], p) == None
  {
    FirstUnique(s + [x], p, First(s + [x], p));
    if First(s, p).Some? {
      FirstUnique(s + [x], p, First(s, p));
    } else if p(x) {
      FirstUnique(s + [x], p, Some(|s|));
    }
  }

  /** The first match is the only index with no earlier match. */
  lemma FirstUnique<T>(s: seq<T>, p: T -> bool, r: Option<nat>)
    requires r.Some? ==> r.value < |s| && p(s[r.value]) && forall j :: 0 <= j < r.value ==> !p(s[j])
    requires r.None? ==> forall j :: 0 <= j < |s| ==> !p(s[j])
    ensures First(s, p) == r
  {
  }
}
