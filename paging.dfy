/**
 * Offset/limit pagination arithmetic shared by the server's post listing and
 * the home page: `Math.ceil(total / limit)` page counts and the page slices.
 */
module Paging {

  /** `Math.ceil(n / d)` for a positive divisor: the fewest pages of size `d` that hold `n` items. */
  function CeilDiv(n: nat, d: nat): (r: nat)
    requires d > 0
    ensures r * d >= n
    ensures r == 0 || (r - 1) * d < n
  {
    var q := (n + d - 1) / d;
    assert n + d - 1 == q * d + (n + d - 1) % d;
    assert (q - 1) * d == q * d - d;
    q
  }

  /** The items a query with `.skip(skip).limit(limit)` returns from the ordered sequence `s`. */
  function Window<T>(s: seq<T>, skip: nat, limit: nat): (r: seq<T>)
    ensures |r| == if skip >= |s| then 0 else if |s| - skip < limit then |s| - skip else limit
    ensures forall k :: 0 <= k < |r| ==> r[k] == s[skip + k]
  {
    if skip >= |s| then [] else s[skip..if skip + limit <= |s| then skip + limit else |s|]
  }

  /** The items of `s` shown on the one-based page `page` when each page holds `limit`. */
  function PageOf<T>(s: seq<T>, page: nat, limit: nat): (r: seq<T>)
    requires page >= 1
    ensures var skip := (page - 1) * limit;
      && |r| == (if skip >= |s| then 0 else if |s| - skip < limit then |s| - skip else limit)
      && forall k :: 0 <= k < |r| ==> r[k] == s[skip + k]
  {
    Window(s, (page - 1) * limit, limit)
  }

  /** Pages 1 .. `count`, one after another. */
  function FirstPages<T>(s: seq<T>, limit: nat, count: nat): seq<T> {
    if count == 0 then [] else FirstPages(s, limit, count - 1) + PageOf(s, count, limit)
  }

  /** Reading the first `count` pages in order yields the first `count * limit` items. */
  lemma {:induction false} FirstPagesArePrefix<T>(s: seq<T>, limit: nat, count: nat)
    ensures FirstPages(s, limit, count) == s[..if count * limit <= |s| then count * limit else |s|]
  {
    if count > 0 {
      FirstPagesArePrefix(s, limit, count - 1);
      assert count * limit == (count - 1) * limit + limit;
    }
  }

  /** Pages 1 .. ceil(|s| / limit) together show every item exactly once, in order. */
  lemma PagesCoverAll<T>(s: seq<T>, limit: nat)
    requires limit > 0
    ensures FirstPages(s, limit, CeilDiv(|s|, limit)) == s
  {
    FirstPagesArePrefix(s, limit, CeilDiv(|s|, limit));
  }

  /** Any page after the last one is empty. */
  lemma PageBeyondLastIsEmpty<T>(s: seq<T>, limit: nat, page: nat)
    requires limit > 0 && page > CeilDiv(|s|, limit)
    ensures PageOf(s, page, limit) == []
  {
    var c := CeilDiv(|s|, limit);
    assert (page - 1) * limit >= c * limit by {
      assert page - 1 >= c;
    }
  }
}
