/**
 * The post routes (server/routes/posts.js): the paginated listing and the
 * single-post read with their derived fields, and the create, update,
 * delete, comment and vote handlers, which change the database.
 */
module PostRoutes {
  import opened Wrappers
  import opened Text
  import opened Search
  import opened Paging
  import opened Sorting
  import opened VoteModel
  import opened PostModel
  import opened ServerStore

  // ---------------------------------------------------------------- reads

  /** `Number.parseInt(q) || d`: a missing, unparsable (None) or zero query value takes the default. */
  function QueryInt(q: Option<int>, d: int): int {
    if q.None? || q.value == 0 then d else q.value
  }

  /** The sort key of `.sort({ createdAt: -1 })`: ascending in the negated creation time. */
  function NewestKey(p: Post): int {
    0 - p.createdAt
  }

  /** All posts, newest first. */
  function NewestFirst(posts: seq<Post>): (r: seq<Post>)
    ensures |r| == |posts| && multiset(r) == multiset(posts)
    ensures forall i, j :: 0 <= i < j < |r| ==> r[i].createdAt >= r[j].createdAt
  {
    var r := SortBy(posts, NewestKey);
    assert |multiset(r)| == |multiset(posts)|;
    assert forall i, j :: 0 <= i < j < |r| ==> NewestKey(r[i]) <= NewestKey(r[j]);
    r
  }

  /** Sorting newest first keeps exactly the same posts. */
  lemma NewestFirstKeepsElements(posts: seq<Post>)
    ensures forall p :: p in NewestFirst(posts) <==> p in posts
  {
    var r := NewestFirst(posts);
    forall p ensures p in r <==> p in posts {
      assert p in r <==> p in multiset(r);
      assert p in posts <==> p in multiset(posts);
    }
  }

  /** A post as the read routes return it, with its derived fields. */
  datatype PostView = PostView(post: Post, commentCount: nat, userVote: Option<int>)

  /** The derived fields: the comment count, and the requester's vote only when there is a requester. */
  function ViewOf(post: Post, comments: seq<Comment>, votes: seq<Vote>, requester: Option<UserId>): PostView {
    PostView(post, CommentCount(comments, post.id),
             if requester.Some? then LookupVote(votes, requester.value, post.id) else None)
  }

  /**
   * What the derived fields mean: `commentCount` is the number of comments
   * the comments route lists for the post; `userVote` is the value of the
   * requester's vote document on the post, and null when there is no such
   * document or no requester.
   */
  lemma ViewOfMeaning(post: Post, comments: seq<Comment>, votes: seq<Vote>, requester: Option<UserId>)
    requires UniquePerUserPost(votes)
    ensures ViewOf(post, comments, votes, requester).commentCount == |CommentsOn(comments, post.id)|
    ensures requester.None? ==> ViewOf(post, comments, votes, requester).userVote == None
    ensures requester.Some? ==> forall k :: 0 <= k < |votes| && Casts(votes[k], requester.value, post.id) ==>
              ViewOf(post, comments, votes, requester).userVote == Some(votes[k].value)
    ensures requester.Some? && (forall k :: 0 <= k < |votes| ==> !Casts(votes[k], requester.value, post.id)) ==>
              ViewOf(post, comments, votes, requester).userVote == None
  {
    CommentCountIsListed(comments, post.id);
    if requester.Some? {
      forall k | 0 <= k < |votes| && Casts(votes[k], requester.value, post.id)
        ensures LookupVote(votes, requester.value, post.id) == Some(votes[k].value)
      {
        LookupUnique(votes, requester.value, post.id, k);
      }
    }
  }

  function Views(page: seq<Post>, comments: seq<Comment>, votes: seq<Vote>, requester: Option<UserId>): (r: seq<PostView>)
    ensures |r| == |page|
    ensures forall k :: 0 <= k < |r| ==> r[k] == ViewOf(page[k], comments, votes, requester)
  {
    seq(|page|, k requires 0 <= k < |page| => ViewOf(page[k], comments, votes, requester))
  }

  /** The response of GET /. */
  datatype Listing = Listing(posts: seq<PostView>, currentPage: int, totalPages: nat)

  /** The posts a listing shows, without their derived fields. */
  function ListedPosts(l: Listing): (r: seq<Post>)
    ensures |r| == |l.posts| && forall k :: 0 <= k < |r| ==> r[k] == l.posts[k].post
  {
    seq(|l.posts|, k requires 0 <= k < |l.posts| => l.posts[k].post)
  }

  /**
   * GET /: page and limit default to 1 and 10; the page holds the posts
   * newest first from offset (page - 1) * limit, at most `limit` of them;
   * totalPages is ceil(total / limit) and currentPage echoes the page.
   */
  function ListPosts(posts: seq<Post>, comments: seq<Comment>, votes: seq<Vote>,
                     pageQuery: Option<int>, limitQuery: Option<int>, requester: Option<UserId>): (r: Listing)
    requires QueryInt(pageQuery, 1) >= 1 && QueryInt(limitQuery, 10) >= 1
    ensures var page, limit := QueryInt(pageQuery, 1), QueryInt(limitQuery, 10);
      var shown := PageOf(NewestFirst(posts), page, limit);
      && r.currentPage == page
      && r.totalPages * limit >= |posts| && (r.totalPages == 0 || (r.totalPages - 1) * limit < |posts|)
      && |r.posts| == |shown|
      && forall k :: 0 <= k < |r.posts| ==> r.posts[k] == ViewOf(shown[k], comments, votes, requester)
  {
    var page: nat, limit: nat := QueryInt(pageQuery, 1), QueryInt(limitQuery, 10);
    Listing(Views(PageOf(NewestFirst(posts), page, limit), comments, votes, requester), page, CeilDiv(|posts|, limit))
  }

  /** Every page of the listing is ordered newest first. */
  lemma ListingNewestFirst(posts: seq<Post>, comments: seq<Comment>, votes: seq<Vote>,
                           pageQuery: Option<int>, limitQuery: Option<int>, requester: Option<UserId>)
    requires QueryInt(pageQuery, 1) >= 1 && QueryInt(limitQuery, 10) >= 1
    ensures var r := ListPosts(posts, comments, votes, pageQuery, limitQuery, requester);
      forall i, j :: 0 <= i < j < |r.posts| ==> r.posts[i].post.createdAt >= r.posts[j].post.createdAt
  {
    var page: nat, limit: nat := QueryInt(pageQuery, 1), QueryInt(limitQuery, 10);
    var shown := PageOf(NewestFirst(posts), page, limit);
    PageNewestFirst(posts, page, limit);
    var r := ListPosts(posts, comments, votes, pageQuery, limitQuery, requester);
    forall i, j | 0 <= i < j < |r.posts| ensures r.posts[i].post.createdAt >= r.posts[j].post.createdAt {
      assert r.posts[i].post == shown[i] && r.posts[j].post == shown[j];
    }
  }

  /** Any page of the newest-first order is itself newest first. */
  lemma PageNewestFirst(posts: seq<Post>, page: nat, limit: nat)
    requires page >= 1
    ensures var shown := PageOf(NewestFirst(posts), page, limit);
      forall i, j :: 0 <= i < j < |shown| ==> shown[i].createdAt >= shown[j].createdAt
  {
    var sorted := NewestFirst(posts);
    var skip: nat := (page - 1) * limit;
    assert PageOf(sorted, page, limit) == Window(sorted, skip, limit);
    WindowKeepsOrder(sorted, skip, limit);
  }

  /** A skip/limit window of a newest-first list is newest first. */
  lemma WindowKeepsOrder(sorted: seq<Post>, skip: nat, limit: nat)
    requires forall i, j :: 0 <= i < j < |sorted| ==> sorted[i].createdAt >= sorted[j].createdAt
    ensures var shown := Window(sorted, skip, limit);
      forall i, j :: 0 <= i < j < |shown| ==> shown[i].createdAt >= shown[j].createdAt
  {
    OffsetKeepsOrder(sorted, Window(sorted, skip, limit), skip);
  }

  lemma OffsetKeepsOrder(sorted: seq<Post>, shown: seq<Post>, skip: nat)
    requires forall i, j :: 0 <= i < j < |sorted| ==> sorted[i].createdAt >= sorted[j].createdAt
    requires forall k :: 0 <= k < |shown| ==> skip + k < |sorted| && shown[k] == sorted[skip + k]
    ensures forall i, j :: 0 <= i < j < |shown| ==> shown[i].createdAt >= shown[j].createdAt
  {
    forall i, j | 0 <= i < j < |shown| ensures shown[i].createdAt >= shown[j].createdAt {
      var earlier, later := shown[i], shown[j];
      assert earlier == sorted[skip + i] && later == sorted[skip + j];
    }
  }

  /** A missing, unparsable or zero page or limit behaves exactly like page 1 and limit 10. */
  lemma ListPostsDefaults(posts: seq<Post>, comments: seq<Comment>, votes: seq<Vote>,
                          pageQuery: Option<int>, limitQuery: Option<int>, requester: Option<UserId>)
    requires pageQuery.None? || pageQuery.value == 0
    requires limitQuery.None? || limitQuery.value == 0
    ensures ListPosts(posts, comments, votes, pageQuery, limitQuery, requester)
         == ListPosts(posts, comments, votes, Some(1), Some(10), requester)
  {
  }

  /** The posts of page `page` are that page of the newest-first ordering. */
  lemma ListingIsPage(posts: seq<Post>, comments: seq<Comment>, votes: seq<Vote>,
                      page: nat, limit: nat, requester: Option<UserId>)
    requires page >= 1 && limit >= 1
    ensures ListedPosts(ListPosts(posts, comments, votes, Some(page), Some(limit), requester))
         == PageOf(NewestFirst(posts), page, limit)
  {
  }

  /** Reading pages 1 .. totalPages shows every post exactly once, newest first. */
  lemma ListingPagesCoverAll(posts: seq<Post>, comments: seq<Comment>, votes: seq<Vote>, limit: nat, requester: Option<UserId>)
    requires limit >= 1
    ensures FirstPages(NewestFirst(posts), limit,
                       ListPosts(posts, comments, votes, Some(1), Some(limit), requester).totalPages)
         == NewestFirst(posts)
  {
    PagesCoverAll(NewestFirst(posts), limit);
  }

  /** Five posts two to a page: page 1 holds the two newest, there are three pages, page 3 holds the oldest alone. */
  lemma ListingOfFive(posts: seq<Post>, comments: seq<Comment>, votes: seq<Vote>)
    requires |posts| == 5
    ensures var first := ListPosts(posts, comments, votes, Some(1), Some(2), None);
      var third := ListPosts(posts, comments, votes, Some(3), Some(2), None);
      && |first.posts| == 2 && first.totalPages == 3
      && ListedPosts(first) == NewestFirst(posts)[..2]
      && |third.posts| == 1 && ListedPosts(third) == [NewestFirst(posts)[4]]
  {
    var first := ListPosts(posts, comments, votes, Some(1), Some(2), None);
    assert first.totalPages == 3 by {
      assert first.totalPages * 2 >= 5;
      assert (first.totalPages - 1) * 2 < 5 || first.totalPages == 0;
    }
    ListingIsPage(posts, comments, votes, 1, 2, None);
    ListingIsPage(posts, comments, votes, 3, 2, None);
  }

  /** GET /:id: the post with its derived fields, or 404. */
  function GetPost(posts: seq<Post>, comments: seq<Comment>, votes: seq<Vote>, id: PostId, requester: Option<UserId>)
    : (r: Result<PostView, Status>)
    ensures r.Err? <==> !HasPost(posts, id)
    ensures r.Err? ==> r.error == NotFound404
    ensures r.Ok? ==> r.value.post.id == id && r.value.post in posts
    ensures r.Ok? ==> r.value == ViewOf(r.value.post, comments, votes, requester)
  {
    match FindPost(posts, id)
    case None => Err(NotFound404)
    case Some(i) => Ok(ViewOf(posts[i], comments, votes, requester))
  }

  /** The sort key of `.sort({ createdAt: 1 })`. */
  function OldestKey(c: Comment): int {
    c.createdAt
  }

  /** GET /:id/comments: the comments on the post, oldest first; an unknown post has none. */
  function ListComments(comments: seq<Comment>, id: PostId): (r: seq<Comment>)
    ensures multiset(r) == multiset(CommentsOn(comments, id))
    ensures forall i, j :: 0 <= i < j < |r| ==> r[i].createdAt <= r[j].createdAt
  {
    var r := SortBy(CommentsOn(comments, id), OldestKey);
    assert SortedBy(r, OldestKey);
    r
  }

  /** The comments route lists every comment on the post and nothing else. */
  lemma ListCommentsExactly(comments: seq<Comment>, id: PostId)
    ensures forall k :: 0 <= k < |ListComments(comments, id)| ==> ListComments(comments, id)[k].post == id
    ensures forall c :: c in comments && c.post == id ==> c in ListComments(comments, id)
  {
    var on := CommentsOn(comments, id);
    var r := ListComments(comments, id);
    forall k | 0 <= k < |r| ensures r[k].post == id {
      assert r[k] in multiset(r);
      var j :| 0 <= j < |on| && on[j] == r[k];
    }
    forall c | c in comments && c.post == id ensures c in r {
      assert c in on;
      assert c in multiset(on);
    }
  }

  // ---------------------------------------------------------------- consistency steps

  lemma HasPostAppend(posts: seq<Post>, x: Post, id: PostId)
    requires HasPost(posts, id)
    ensures HasPost(posts + [x], id)
  {
    var k :| 0 <= k < |posts| && posts[k].id == id;
    assert (posts + [x])[k] == posts[k];
  }

  lemma HasPostUpdate(posts: seq<Post>, i: nat, x: Post, id: PostId)
    requires i < |posts| && x.id == posts[i].id && HasPost(posts, id)
    ensures HasPost(posts[i := x], id)
  {
    var k :| 0 <= k < |posts| && posts[k].id == id;
    assert posts[i := x][k].id == id;
  }

  lemma HasPostRemove(posts: seq<Post>, i: nat, id: PostId)
    requires i < |posts| && posts[i].id != id && HasPost(posts, id)
    ensures HasPost(RemoveAt(posts, i), id)
  {
    var k :| 0 <= k < |posts| && posts[k].id == id;
    var k' := if k < i then k else k - 1;
    assert RemoveAt(posts, i)[k'] == posts[k];
  }

  /** Replacing one post by a conforming one with the same id and counters keeps the database consistent. */
  lemma ReplacePostConsistent(users: seq<User>, posts: seq<Post>, comments: seq<Comment>, votes: seq<Vote>,
                              nextId: nat, i: nat, x: Post)
    requires Consistent(users, posts, comments, votes, nextId)
    requires i < |posts| && x.id == posts[i].id && Conforms(x)
    requires x.upvotes == posts[i].upvotes && x.downvotes == posts[i].downvotes
    ensures Consistent(users, posts[i := x], comments, votes, nextId)
  {
    var ps := posts[i := x];
    forall k | 0 <= k < |votes| ensures HasPost(ps, votes[k].post) {
      HasPostUpdate(posts, i, x, votes[k].post);
    }
    forall k | 0 <= k < |comments| ensures HasPost(ps, comments[k].post) {
      HasPostUpdate(posts, i, x, comments[k].post);
    }
  }

  /** Adding a conforming post with a fresh id and zero counters keeps the database consistent. */
  lemma AddPostConsistent(users: seq<User>, posts: seq<Post>, comments: seq<Comment>, votes: seq<Vote>,
                          nextId: nat, x: Post)
    requires Consistent(users, posts, comments, votes, nextId)
    requires x.id == nextId && Conforms(x) && x.upvotes == 0 && x.downvotes == 0
    ensures Consistent(users, posts + [x], comments, votes, nextId + 1)
  {
    var ps := posts + [x];
    forall k | 0 <= k < |votes| ensures HasPost(ps, votes[k].post) && votes[k].post != nextId {
      HasPostAppend(posts, x, votes[k].post);
    }
    forall k | 0 <= k < |comments| ensures HasPost(ps, comments[k].post) {
      HasPostAppend(posts, x, comments[k].post);
    }
    CountNotReferenced(votes, nextId, 1);
    CountNotReferenced(votes, nextId, -1);
  }

  /** Under unique ids, no later comment shares the first one's id. */
  lemma HeadIdFresh(comments: seq<Comment>)
    requires comments != [] && CommentIdsUnique(comments)
    ensures forall c :: c in comments[1..] ==> c.id != comments[0].id
  {
    forall c | c in comments[1..] ensures c.id != comments[0].id {
      var j :| 0 <= j < |comments[1..]| && comments[1..][j] == c;
      assert comments[j + 1] == c;
    }
  }

  /** A comment whose id no comment of `rest` has can go in front of them. */
  lemma ConsIdsUnique(c: Comment, rest: seq<Comment>, pool: seq<Comment>)
    requires CommentIdsUnique(rest)
    requires forall k :: 0 <= k < |rest| ==> rest[k] in pool
    requires forall x :: x in pool ==> x.id != c.id
    ensures CommentIdsUnique([c] + rest)
  {
    var r := [c] + rest;
    forall a, b | 0 <= a < b < |r| ensures r[a].id != r[b].id {
      assert r[b] == rest[b - 1];
      if a > 0 { assert r[a] == rest[a - 1]; }
    }
  }

  /** Comment ids stay unique when some comments are removed. */
  lemma {:induction false} CommentsNotOnIdsUnique(comments: seq<Comment>, p: PostId)
    requires CommentIdsUnique(comments)
    ensures CommentIdsUnique(CommentsNotOn(comments, p))
  {
    if comments != [] {
      var tail := comments[1..];
      CommentsNotOnIdsUnique(tail, p);
      var r := CommentsNotOn(comments, p);
      var rt := CommentsNotOn(tail, p);
      if comments[0].post != p {
        HeadIdFresh(comments);
        ConsIdsUnique(comments[0], rt, tail);
        assert r == [comments[0]] + rt;
      } else {
        assert r == rt;
      }
    }
  }

  /** Removing post `i` with its comments and votes keeps the database consistent. */
  lemma DeletePostConsistent(users: seq<User>, posts: seq<Post>, comments: seq<Comment>, votes: seq<Vote>,
                             nextId: nat, i: nat)
    requires Consistent(users, posts, comments, votes, nextId)
    requires i < |posts|
    ensures var id := posts[i].id;
      Consistent(users, RemoveAt(posts, i), CommentsNotOn(comments, id), VotesNotOn(votes, id), nextId)
  {
    var id := posts[i].id;
    var ps := RemoveAt(posts, i);
    var cs := CommentsNotOn(comments, id);
    var vs := VotesNotOn(votes, id);
    VotesNotOnWellFormed(votes, id);
    CommentsNotOnIdsUnique(comments, id);
    forall k | 0 <= k < |vs| ensures HasPost(ps, vs[k].post) {
      var j :| 0 <= j < |votes| && votes[j] == vs[k];
      HasPostRemove(posts, i, vs[k].post);
    }
    forall k | 0 <= k < |cs| ensures HasPost(ps, cs[k].post) {
      var j :| 0 <= j < |comments| && comments[j] == cs[k];
      HasPostRemove(posts, i, cs[k].post);
    }
    forall k | 0 <= k < |ps|
      ensures ps[k].upvotes == Upvotes(vs, ps[k].id) && ps[k].downvotes == Downvotes(vs, ps[k].id)
    {
      var k' := if k < i then k else k + 1;
      assert ps[k] == posts[k'] && posts[k'].id != id;
      VotesNotOnCounts(votes, id, ps[k].id, 1);
      VotesNotOnCounts(votes, id, ps[k].id, -1);
    }
    forall k | 0 <= k < |cs| ensures cs[k].id < nextId {
      var j :| 0 <= j < |comments| && comments[j] == cs[k];
    }
  }

  /** Appending a comment with a fresh id on an existing post keeps the database consistent. */
  lemma AddCommentConsistent(users: seq<User>, posts: seq<Post>, comments: seq<Comment>, votes: seq<Vote>,
                             nextId: nat, c: Comment)
    requires Consistent(users, posts, comments, votes, nextId)
    requires c.id == nextId && HasPost(posts, c.post)
    ensures Consistent(users, posts, comments + [c], votes, nextId + 1)
  {
  }

  /** A vote transition followed by the recount of the voted post keeps the database consistent. */
  lemma CastVoteConsistent(users: seq<User>, posts: seq<Post>, comments: seq<Comment>, votes: seq<Vote>,
                           nextId: nat, u: UserId, i: nat, value: int, now: nat)
    requires Consistent(users, posts, comments, votes, nextId)
    requires i < |posts| && IsSubmittedValue(value)
    ensures var p := posts[i].id;
      var vs := SetVote(votes, u, p, value, now);
      Consistent(users, posts[i := posts[i].(upvotes := Upvotes(vs, p), downvotes := Downvotes(vs, p))],
                 comments, vs, nextId)
  {
    var p := posts[i].id;
    var vs := SetVote(votes, u, p, value, now);
    var x := posts[i].(upvotes := Upvotes(vs, p), downvotes := Downvotes(vs, p));
    var ps := posts[i := x];
    SetVoteWellFormed(votes, u, p, value, now);
    SetVoteKeepsOrTargets(votes, u, p, value, now);
    forall k | 0 <= k < |vs| ensures HasPost(ps, vs[k].post) {
      if vs[k].post == p {
        assert ps[i].id == p;
      } else {
        var j :| 0 <= j < |votes| && votes[j] == vs[k];
        HasPostUpdate(posts, i, x, vs[k].post);
      }
    }
    forall k | 0 <= k < |comments| ensures HasPost(ps, comments[k].post) {
      HasPostUpdate(posts, i, x, comments[k].post);
    }
    forall k | 0 <= k < |ps|
      ensures ps[k].upvotes == Upvotes(vs, ps[k].id) && ps[k].downvotes == Downvotes(vs, ps[k].id)
    {
      if k != i {
        SetVoteCounts(votes, u, p, value, now, ps[k].id, 1);
        SetVoteCounts(votes, u, p, value, now, ps[k].id, -1);
      }
    }
  }

  // ---------------------------------------------------------------- handlers that change the database

  /**
   * POST /: builds the post from the body for the requester, with tags
   * defaulting to [] and a falsy image to null. A post the schema rejects
   * is answered 500 and nothing is stored.
   */
  method CreatePost(db: Db, requester: UserId, title: Option<string>, content: Option<string>,
                    tags: Option<seq<string>>, image: Option<string>, now: nat)
    returns (status: Status, postId: Option<PostId>)
    requires db.Valid()
    modifies db
    ensures db.Valid()
    ensures var built := BuildPost(old(db.nextId), title, content, requester,
                                   if tags.Some? then tags.value else [], OrNull(image), now);
      && (built.None? ==> status == ServerError500 && postId == None && unchanged(db))
      && (built.Some? ==>
            && status == Created201 && postId == Some(old(db.nextId))
            && db.posts == old(db.posts) + [built.value] && db.nextId == old(db.nextId) + 1
            && db.users == old(db.users) && db.comments == old(db.comments) && db.votes == old(db.votes))
  {
    var built := BuildPost(db.nextId, title, content, requester, if tags.Some? then tags.value else [], OrNull(image), now);
    if built.None? {
      return ServerError500, None;
    }
    AddPostConsistent(db.users, db.posts, db.comments, db.votes, db.nextId, built.value);
    db.posts := db.posts + [built.value];
    postId := Some(db.nextId);
    db.nextId := db.nextId + 1;
    status := Created201;
  }

  /**
   * The fields PUT /:id writes: each of title, content and tags keeps its
   * old value when the new one is falsy (an empty array of tags is not
   * falsy), the title and tags pass through `trim`, and updatedAt is set.
   * The save is rejected when a truthy title trims to nothing.
   */
  function Revise(post: Post, title: Option<string>, content: Option<string>, tags: Option<seq<string>>, now: nat)
    : (r: Option<Post>)
    requires Conforms(post)
    ensures r.None? <==> Truthy(title) && Trim(title.value) == []
    ensures r.Some? ==> r.value == post.(title := if Truthy(title) then Trim(title.value) else post.title,
                                         content := OrElse(content, post.content),
                                         tags := if tags.Some? then TrimAll(tags.value) else post.tags,
                                         updatedAt := now)
    ensures r.Some? ==> Conforms(r.value)
  {
    var t := if Truthy(title) then Trim(title.value) else post.title;
    if t == [] then None
    else
      var ts := if tags.Some? then TrimAll(tags.value) else post.tags;
      var c := OrElse(content, post.content);
      assert IsTrimmed(t) by {
        if Truthy(title) { TrimIsTrimmed(title.value); }
      }
      assert c != [];
      assert forall k :: 0 <= k < |ts| ==> IsTrimmed(ts[k]) by {
        if tags.Some? { TrimAllTrimmed(tags.value); }
      }
      ReviseConforms(post, t, c, ts, now);
      Some(post.(title := t, content := c, tags := ts, updatedAt := now))
  }

  /** Every tag `trim` produced is trimmed. */
  lemma TrimAllTrimmed(tags: seq<string>)
    ensures forall k :: 0 <= k < |TrimAll(tags)| ==> IsTrimmed(TrimAll(tags)[k])
  {
    forall k | 0 <= k < |TrimAll(tags)| ensures IsTrimmed(TrimAll(tags)[k]) {
      TrimIsTrimmed(tags[k]);
    }
  }

  /** A revision with a trimmed title, non-empty content and trimmed tags passes the schema. */
  lemma ReviseConforms(post: Post, t: string, c: string, ts: seq<string>, now: nat)
    requires Conforms(post) && t != [] && IsTrimmed(t)
    requires c != []
    requires forall k :: 0 <= k < |ts| ==> IsTrimmed(ts[k])
    ensures Conforms(post.(title := t, content := c, tags := ts, updatedAt := now))
  {
  }

  /** PUT /:id: 404 for an unknown post, 403 unless the requester wrote it, 500 if the revision is rejected. */
  method UpdatePost(db: Db, requester: UserId, id: PostId, title: Option<string>, content: Option<string>,
                    tags: Option<seq<string>>, now: nat)
    returns (status: Status)
    requires db.Valid()
    modifies db
    ensures db.Valid()
    ensures !HasPost(old(db.posts), id) ==> status == NotFound404 && unchanged(db)
    ensures HasPost(old(db.posts), id) ==>
      var i := FindPost(old(db.posts), id).value;
      var post := old(db.posts)[i];
      && (post.author != requester ==> status == Forbidden403 && unchanged(db))
      && (post.author == requester && Revise(post, title, content, tags, now).None? ==>
            status == ServerError500 && unchanged(db))
      && (post.author == requester && Revise(post, title, content, tags, now).Some? ==>
            && status == Ok200
            && db.posts == old(db.posts)[i := Revise(post, title, content, tags, now).value]
            && db.users == old(db.users) && db.comments == old(db.comments)
            && db.votes == old(db.votes) && db.nextId == old(db.nextId))
  {
    var found := FindPost(db.posts, id);
    if found.None? {
      return NotFound404;
    }
    var i := found.value;
    if db.posts[i].author != requester {
      return Forbidden403;
    }
    assert Conforms(db.posts[i]);
    var revised := Revise(db.posts[i], title, content, tags, now);
    if revised.None? {
      return ServerError500;
    }
    ReplacePostConsistent(db.users, db.posts, db.comments, db.votes, db.nextId, i, revised.value);
    db.posts := db.posts[i := revised.value];
    status := Ok200;
  }

  /**
   * DELETE /:id: 404 for an unknown post, 403 unless the requester wrote
   * it; otherwise the post, its comments and its votes are removed in one
   * step, and the post can no longer be found.
   */
  method DeletePost(db: Db, requester: UserId, id: PostId) returns (status: Status)
    requires db.Valid()
    modifies db
    ensures db.Valid()
    ensures !HasPost(old(db.posts), id) ==> status == NotFound404 && unchanged(db)
    ensures HasPost(old(db.posts), id) ==>
      var i := FindPost(old(db.posts), id).value;
      && (old(db.posts)[i].author != requester ==> status == Forbidden403 && unchanged(db))
      && (old(db.posts)[i].author == requester ==>
            && status == Ok200
            && db.posts == RemoveAt(old(db.posts), i)
            && db.comments == CommentsNotOn(old(db.comments), id)
            && db.votes == VotesNotOn(old(db.votes), id)
            && db.users == old(db.users) && db.nextId == old(db.nextId)
            && !HasPost(db.posts, id))
  {
    var found := FindPost(db.posts, id);
    if found.None? {
      return NotFound404;
    }
    var i := found.value;
    if db.posts[i].author != requester {
      return Forbidden403;
    }
    DeletePostConsistent(db.users, db.posts, db.comments, db.votes, db.nextId, i);
    ghost var before := db.posts;
    db.posts := RemoveAt(db.posts, i);
    db.comments := CommentsNotOn(db.comments, id);
    db.votes := VotesNotOn(db.votes, id);
    forall k | 0 <= k < |db.posts| ensures db.posts[k].id != id {
      var k' := if k < i then k else k + 1;
      assert db.posts[k] == before[k'];
    }
    status := Ok200;
  }

  /** POST /:id/comments: 404 for an unknown post; otherwise one comment by the requester is added. */
  method AddComment(db: Db, requester: UserId, id: PostId, content: string, now: nat)
    returns (status: Status, comment: Option<Comment>)
    requires db.Valid()
    modifies db
    ensures db.Valid()
    ensures !HasPost(old(db.posts), id) ==> status == NotFound404 && comment == None && unchanged(db)
    ensures HasPost(old(db.posts), id) ==>
      && status == Created201
      && comment == Some(Comment(old(db.nextId), id, requester, content, now))
      && db.comments == old(db.comments) + [comment.value]
      && db.nextId == old(db.nextId) + 1
      && db.users == old(db.users) && db.posts == old(db.posts) && db.votes == old(db.votes)
      && CommentCount(db.comments, id) == CommentCount(old(db.comments), id) + 1
  {
    var found := FindPost(db.posts, id);
    if found.None? {
      return NotFound404, None;
    }
    var c := Comment(db.nextId, id, requester, content, now);
    AddCommentConsistent(db.users, db.posts, db.comments, db.votes, db.nextId, c);
    CommentCountAppend(db.comments, c, id);
    db.comments := db.comments + [c];
    db.nextId := db.nextId + 1;
    status, comment := Created201, Some(c);
  }

  /**
   * POST /:id/vote: a value outside {-1, 0, 1} is answered 400 and an
   * unknown post 404, both changing nothing. Otherwise the requester's
   * vote takes the submitted value (none for 0), every other vote
   * document stays as it was, and the post's counters are recounted.
   */
  method CastVote(db: Db, requester: UserId, id: PostId, value: int, now: nat) returns (status: Status)
    requires db.Valid()
    modifies db
    ensures db.Valid()
    ensures !IsSubmittedValue(value) ==> status == BadRequest400 && unchanged(db)
    ensures IsSubmittedValue(value) && !HasPost(old(db.posts), id) ==> status == NotFound404 && unchanged(db)
    ensures IsSubmittedValue(value) && HasPost(old(db.posts), id) ==>
      var i := FindPost(old(db.posts), id).value;
      && status == Ok200
      && db.votes == SetVote(old(db.votes), requester, id, value, now)
      && db.posts == old(db.posts)[i := old(db.posts)[i].(upvotes := Upvotes(db.votes, id), downvotes := Downvotes(db.votes, id))]
      && LookupVote(db.votes, requester, id) == (if value == 0 then None else Some(value))
      && VotesExcept(db.votes, requester, id) == VotesExcept(old(db.votes), requester, id)
      && db.users == old(db.users) && db.comments == old(db.comments) && db.nextId == old(db.nextId)
  {
    if !IsSubmittedValue(value) {
      return BadRequest400;
    }
    var found := FindPost(db.posts, id);
    if found.None? {
      return NotFound404;
    }
    var i := found.value;
    CastVoteConsistent(db.users, db.posts, db.comments, db.votes, db.nextId, requester, i, value, now);
    SetVoteLookup(db.votes, requester, id, value, now, requester, id);
    SetVoteOthersUntouched(db.votes, requester, id, value, now);
    ghost var target := SetVote(db.votes, requester, id, value, now);
    var existing := FindVote(db.votes, requester, id);
    if existing.Some? {
      var j := existing.value;
      if value == 0 {
        db.votes := db.votes[..j] + db.votes[j + 1..];
      } else {
        db.votes := db.votes[j := db.votes[j].(value := value)];
      }
    } else if value != 0 {
      db.votes := db.votes + [Vote(requester, id, value, now)];
    }
    assert db.votes == target;
    var up := Upvotes(db.votes, id);
    var down := Downvotes(db.votes, id);
    db.posts := db.posts[i := db.posts[i].(upvotes := up, downvotes := down)];
    status := Ok200;
  }
}
