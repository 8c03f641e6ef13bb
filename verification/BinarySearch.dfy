/** The recursive binary search of the source map consumer. */
module BinarySearch {
  import opened Wrappers

  // The indices `low` and below, and `high` and above, do not hold the needle.
  function RecursiveSearch<T>(low: int, high: int, needle: T, haystack: seq<T>, cmp: (T, T) -> int): (r: Option<T>)
    requires -1 <= low && low + 1 < high <= |haystack|
    decreases high - low
  {
    var mid := (high - low) / 2 + low;
    var c := cmp(needle, haystack[mid]);
    if c == 0 then Some(haystack[mid])
    else if c > 0 then
      if high - mid > 1 then RecursiveSearch(mid, high, needle, haystack, cmp) else Some(haystack[mid])
    else
      if mid - low > 1 then RecursiveSearch(low, mid, needle, haystack, cmp)
      else if low < 0 then None
      else Some(haystack[low])
  }

  function Search<T>(needle: T, haystack: seq<T>, cmp: (T, T) -> int): Option<T> {
    if |haystack| > 0 then RecursiveSearch(-1, |haystack|, needle, haystack, cmp) else None
  }

  // Whatever the order of the haystack, the result is one of its elements.
  lemma SearchMember<T>(needle: T, haystack: seq<T>, cmp: (T, T) -> int)
    ensures var r := Search(needle, haystack, cmp); r.Some? ==> r.value in haystack
  {
    if |haystack| > 0 {
      RecursiveSearchMember(-1, |haystack|, needle, haystack, cmp);
    }
  }

  lemma {:induction false} RecursiveSearchMember<T>(low: int, high: int, needle: T, haystack: seq<T>,
                                                    cmp: (T, T) -> int)
    requires -1 <= low && low + 1 < high <= |haystack|
    ensures var r := RecursiveSearch(low, high, needle, haystack, cmp); r.Some? ==> r.value in haystack
    decreases high - low
  {
    var mid := (high - low) / 2 + low;
    var c := cmp(needle, haystack[mid]);
    if c > 0 && high - mid > 1 {
      RecursiveSearchMember(mid, high, needle, haystack, cmp);
    } else if c < 0 && mid - low > 1 {
      RecursiveSearchMember(low, mid, needle, haystack, cmp);
    }
  }

  // The comparison with the needle falls along the haystack: first the smaller elements, then the equal ones, then
  // the greater ones.
  ghost predicate Monotone<T>(needle: T, haystack: seq<T>, cmp: (T, T) -> int) {
    forall i, j :: 0 <= i < j < |haystack| ==>
      && (cmp(needle, haystack[i]) < 0 ==> cmp(needle, haystack[j]) < 0)
      && (cmp(needle, haystack[i]) <= 0 ==> cmp(needle, haystack[j]) <= 0)
  }

  // Index k holds the answer: an equal element, or the last smaller one when no element is equal.
  ghost predicate Answers<T>(k: int, needle: T, haystack: seq<T>, cmp: (T, T) -> int)
    requires -1 <= k < |haystack|
  {
    if k >= 0 && cmp(needle, haystack[k]) == 0 then true
    else
      && (forall i :: 0 <= i <= k ==> cmp(needle, haystack[i]) > 0)
      && (forall i :: k < i < |haystack| ==> cmp(needle, haystack[i]) < 0)
  }

  ghost predicate Found<T>(r: Option<T>, needle: T, haystack: seq<T>, cmp: (T, T) -> int) {
    exists k :: -1 <= k < |haystack| && r == (if k < 0 then None else Some(haystack[k]))
        && Answers(k, needle, haystack, cmp)
  }

  lemma {:induction false} RecursiveSearchCorrect<T>(low: int, high: int, needle: T, haystack: seq<T>,
                                                     cmp: (T, T) -> int)
    requires -1 <= low && low + 1 < high <= |haystack|
    requires Monotone(needle, haystack, cmp)
    requires low >= 0 ==> cmp(needle, haystack[low]) > 0
    requires high < |haystack| ==> cmp(needle, haystack[high]) < 0
    ensures Found(RecursiveSearch(low, high, needle, haystack, cmp), needle, haystack, cmp)
    decreases high - low
  {
    hide Monotone, Found, Answers;
    var mid := (high - low) / 2 + low;
    var c := cmp(needle, haystack[mid]);
    if c == 0 {
      FoundAt(mid, needle, haystack, cmp);
    } else if c > 0 {
      if high - mid > 1 {
        RecursiveSearchCorrect(mid, high, needle, haystack, cmp);
      } else {
        FoundAt(mid, needle, haystack, cmp);
      }
    } else {
      if mid - low > 1 {
        RecursiveSearchCorrect(low, mid, needle, haystack, cmp);
      } else {
        FoundAt(low, needle, haystack, cmp);
      }
    }
  }

  // Where the comparison changes sign is the answer.
  lemma FoundAt<T>(k: int, needle: T, haystack: seq<T>, cmp: (T, T) -> int)
    requires -1 <= k < |haystack| && Monotone(needle, haystack, cmp)
    requires (k >= 0 && cmp(needle, haystack[k]) == 0) ||
             ((k >= 0 ==> cmp(needle, haystack[k]) > 0) && (k + 1 < |haystack| ==> cmp(needle, haystack[k + 1]) < 0))
    ensures Found(if k < 0 then None else Some(haystack[k]), needle, haystack, cmp)
  {
    assert Answers(k, needle, haystack, cmp);
  }

  // On every monotone haystack the search finds an equal element if there is one, otherwise the last smaller element,
  // otherwise nothing.
  lemma SearchCorrect<T>(needle: T, haystack: seq<T>, cmp: (T, T) -> int)
    requires Monotone(needle, haystack, cmp)
    ensures Found(Search(needle, haystack, cmp), needle, haystack, cmp)
    ensures (exists i :: 0 <= i < |haystack| && cmp(needle, haystack[i]) == 0) ==>
              Search(needle, haystack, cmp).Some? && cmp(needle, Search(needle, haystack, cmp).value) == 0
    ensures Search(needle, haystack, cmp).None? <==> forall i :: 0 <= i < |haystack| ==> cmp(needle, haystack[i]) < 0
  {
    if |haystack| > 0 {
      RecursiveSearchCorrect(-1, |haystack|, needle, haystack, cmp);
    } else {
      assert Answers(-1, needle, haystack, cmp);
    }
  }
}
