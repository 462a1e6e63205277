/** Lookups over in-memory collections: `Array.prototype.find`/`findIndex` and `Model.findOne`/`findById`. */
module Search {
  import opened Wrappers

  /** The position of the first element satisfying `matches`, or None when there is none. */
  function FindIndex<T>(s: seq<T>, matches: T -> bool): (r: Option<nat>)
    ensures r.Some? ==> r.value < |s| && matches(s[r.value])
    ensures r.Some? ==> forall k :: 0 <= k < r.value ==> !matches(s[k])
    ensures r.None? <==> forall k :: 0 <= k < |s| ==> !matches(s[k])
  {
    if s == [] then None
    else if matches(s[0]) then Some(0)
    else match FindIndex(s[1..], matches)
      case None => None
      case Some(i) => Some(i + 1)
  }

  /** `s.filter(matches)`: the elements satisfying `matches`, in their original order. */
  function Filter<T>(s: seq<T>, matches: T -> bool): (r: seq<T>)
    ensures |r| <= |s|
    ensures forall k :: 0 <= k < |r| ==> r[k] in s && matches(r[k])
    ensures forall x :: x in s && matches(x) ==> x in r
  {
    if s == [] then []
    else (if matches(s[0]) then [s[0]] else []) + Filter(s[1..], matches)
  }

  /** Filtering distributes over concatenation, so the kept elements stay in their original order. */
  lemma {:induction false} FilterConcat<T>(a: seq<T>, b: seq<T>, matches: T -> bool)
    ensures Filter(a + b, matches) == Filter(a, matches) + Filter(b, matches)
  {
    if a == [] {
      assert a + b == b;
    } else {
      assert (a + b)[1..] == a[1..] + b;
      FilterConcat(a[1..], b, matches);
    }
  }

  /** When every element matches, filtering keeps the whole sequence. */
  lemma {:induction false} FilterKeepsAll<T>(s: seq<T>, matches: T -> bool)
    requires forall k :: 0 <= k < |s| ==> matches(s[k])
    ensures Filter(s, matches) == s
  {
    if s != [] {
      FilterKeepsAll(s[1..], matches);
    }
  }

  /** No two positions of `s` hold the same element. */
  predicate Distinct<T(==)>(s: seq<T>) {
    forall i, j :: 0 <= i < j < |s| ==> s[i] != s[j]
  }

  /** Filtering a sequence without repeats yields one without repeats. */
  lemma {:induction false} FilterDistinct<T>(s: seq<T>, matches: T -> bool)
    requires Distinct(s)
    ensures Distinct(Filter(s, matches))
  {
    if s != [] {
      FilterDistinct(s[1..], matches);
      var rest := Filter(s[1..], matches);
      assert s[0] !in s[1..] by {
        forall k | 0 <= k < |s[1..]| ensures s[1..][k] != s[0] {
          assert s[1..][k] == s[k + 1];
        }
      }
      assert s[0] !in rest;
    }
  }

  /** `s` with the element at position `i` taken out, the rest in order: `splice(i, 1)`. */
  function RemoveAt<T>(s: seq<T>, i: nat): (r: seq<T>)
    requires i < |s|
    ensures |r| == |s| - 1
    ensures forall k :: 0 <= k < i ==> r[k] == s[k]
    ensures forall k :: i <= k < |r| ==> r[k] == s[k + 1]
  {
    s[..i] + s[i + 1..]
  }
}
