/**
 * The home page (src/pages/HomePage.jsx): the search filter over the loaded
 * posts, and the pagination state with its clamped Previous and Next
 * buttons and one button per page.
 */
module HomePage {
  import opened Wrappers
  import opened Text
  import opened Search
  import opened Paging
  import opened MockApi

  /** Posts per page in the page count. */
  const PageSize: nat := 10

  /** The post mentions `term`, ignoring case, in its title, its content or one of its tags. */
  predicate Mentions(post: MockPost, term: string) {
    var q := ToLower(term);
    || Contains(ToLower(post.title), q)
    || Contains(ToLower(post.content), q)
    || exists k :: 0 <= k < |post.tags| && Contains(ToLower(post.tags[k]), q)
  }

  function MentionsTerm(term: string): MockPost -> bool {
    (p: MockPost) => Mentions(p, term)
  }

  /**
   * `filteredPosts`: the loaded posts that mention the search term, in
   * their loaded order; [] when the loaded value is not an array (None).
   */
  function FilteredPosts(posts: Option<seq<MockPost>>, term: string): (r: seq<MockPost>)
    ensures posts.None? ==> r == []
    ensures posts.Some? ==> forall k :: 0 <= k < |r| ==> r[k] in posts.value && Mentions(r[k], term)
    ensures posts.Some? ==> forall p :: p in posts.value && Mentions(p, term) ==> p in r
  {
    if posts.None? then [] else Filter(posts.value, MentionsTerm(term))
  }

  /** Every post mentions the empty term. */
  lemma MentionsEmpty(post: MockPost)
    ensures Mentions(post, "")
  {
    assert ToLower("") == "";
    ContainsEmpty(ToLower(post.title));
  }

  /** With no search term every loaded post is shown, in order. */
  lemma EmptyTermKeepsAll(posts: seq<MockPost>)
    ensures FilteredPosts(Some(posts), "") == posts
  {
    forall k | 0 <= k < |posts| ensures MentionsTerm("")(posts[k]) {
      MentionsEmpty(posts[k]);
    }
    FilterKeepsAll(posts, MentionsTerm(""));
  }

  /** The filter keeps the loaded order: the shown posts of a split list are those of its first part, then its second. */
  lemma FilteredInLoadedOrder(a: seq<MockPost>, b: seq<MockPost>, term: string)
    ensures FilteredPosts(Some(a + b), term) == FilteredPosts(Some(a), term) + FilteredPosts(Some(b), term)
  {
    FilterConcat(a, b, MentionsTerm(term));
  }

  /** A post is shown exactly when it is loaded and mentions the term. */
  lemma ShownIff(posts: seq<MockPost>, term: string, p: MockPost)
    ensures p in FilteredPosts(Some(posts), term) <==> p in posts && Mentions(p, term)
  {
    var r := FilteredPosts(Some(posts), term);
    if p in r {
      var k :| 0 <= k < |r| && r[k] == p;
    }
  }

  /** The numbers on the page buttons: 1 .. totalPages in order. */
  function PageButtons(totalPages: nat): (r: seq<nat>)
    ensures |r| == totalPages
    ensures forall k :: 0 <= k < |r| ==> r[k] == k + 1
  {
    seq(totalPages, i requires 0 <= i < totalPages => i + 1)
  }

  /** There is a button for every page and for nothing else, each number once. */
  lemma PageButtonsExactly(totalPages: nat)
    ensures forall n: nat :: n in PageButtons(totalPages) <==> 1 <= n <= totalPages
    ensures forall i, j :: 0 <= i < j < totalPages ==> PageButtons(totalPages)[i] < PageButtons(totalPages)[j]
  {
    var r := PageButtons(totalPages);
    forall n: nat | 1 <= n <= totalPages ensures n in r {
      assert r[n - 1] == n;
    }
  }

  class Pager {
    var currentPage: int
    var totalPages: int

    ghost predicate Valid()
      reads this
    {
      currentPage >= 1
    }

    /** The initial state: page 1 of 1. */
    constructor ()
      ensures Valid() && currentPage == 1 && totalPages == 1
    {
      currentPage, totalPages := 1, 1;
    }

    /** After the posts load: one page per ten posts, rounded up; the current page is kept. */
    method Loaded(data: seq<MockPost>)
      requires Valid()
      modifies this
      ensures Valid()
      ensures totalPages == CeilDiv(|data|, PageSize) && currentPage == old(currentPage)
      ensures totalPages * PageSize >= |data| && (totalPages == 0 || (totalPages - 1) * PageSize < |data|)
    {
      totalPages := CeilDiv(|data|, PageSize);
    }

    /** Previous: one page back, never below page 1. */
    method Previous()
      requires Valid() && totalPages > 1
      modifies this
      ensures Valid()
      ensures currentPage == (if old(currentPage) - 1 > 1 then old(currentPage) - 1 else 1)
      ensures currentPage >= 1 && totalPages == old(totalPages)
    {
      currentPage := if currentPage - 1 > 1 then currentPage - 1 else 1;
    }

    /** Next: one page on, never beyond the last page. */
    method Next()
      requires Valid() && totalPages > 1
      modifies this
      ensures Valid()
      ensures currentPage == (if old(currentPage) + 1 < totalPages then old(currentPage) + 1 else totalPages)
      ensures currentPage <= totalPages && totalPages == old(totalPages)
    {
      currentPage := if currentPage + 1 < totalPages then currentPage + 1 else totalPages;
    }

    /** A page button: jumps to the page on it. */
    method GoTo(page: nat)
      requires Valid() && totalPages > 1 && page in PageButtons(totalPages)
      modifies this
      ensures Valid() && currentPage == page && totalPages == old(totalPages)
    {
      currentPage := page;
    }
  }
}
