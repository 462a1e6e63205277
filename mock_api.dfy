/**
 * The client's in-memory stand-in for the server (src/services/api.js):
 * module-level `posts` and `comments` arrays that the exported functions
 * read, push to, splice and assign by index.
 */
module MockApi {
  import opened Wrappers
  import opened Text
  import opened Search
  import opened Tally

  /** A post of the mock store; the populated `author` object is left to its `authorId`. */
  datatype MockPost = MockPost(
    id: nat,
    title: string,
    content: string,
    tags: seq<string>,
    image: Option<string>,
    createdAt: nat,
    authorId: nat,
    upvotes: int,
    downvotes: int,
    commentCount: int,
    userVote: Option<int>,
    updatedAt: Option<nat>)

  datatype MockComment = MockComment(id: nat, content: string, createdAt: nat, authorId: nat, postId: nat, likes: nat)

  /** What `createPost` reads from its argument. */
  datatype NewPostData = NewPostData(title: string, content: string, tags: Option<seq<string>>, image: Option<string>)

  /** The keys `updatePost`'s argument may carry; None is a key that is absent. */
  datatype PostPatch = PostPatch(
    title: Option<string>,
    content: Option<string>,
    tags: Option<seq<string>>,
    image: Option<Option<string>>)

  /** The user the mock treats as logged in (Chef Julia). */
  const CurrentUser: nat := 1

  const NotFound := "Post not found"

  predicate IdsDistinct(posts: seq<MockPost>) {
    forall i, j :: 0 <= i < j < |posts| ==> posts[i].id != posts[j].id
  }

  /** Comments are only ever pushed, each numbered one past the length before it. */
  predicate CommentsNumbered(comments: seq<MockComment>) {
    forall k :: 0 <= k < |comments| ==> comments[k].id == k + 1
  }

  /** The tally a post carries, in the shape the shared ±1 rule works on. */
  function TallyOf(p: MockPost): Tally {
    Tally(p.userVote, p.upvotes, p.downvotes)
  }

  // ---------------------------------------------------------------- post ids

  /** The id `createPost` hands out as written: one past the length of `posts`. */
  function LengthPostId(posts: seq<MockPost>): nat {
    |posts| + 1
  }

  /** The largest id in `posts`, 0 for none. */
  function MaxId(posts: seq<MockPost>): (m: nat)
    ensures forall k :: 0 <= k < |posts| ==> posts[k].id <= m
    ensures posts == [] ==> m == 0
  {
    if posts == [] then 0
    else
      var rest := MaxId(posts[..|posts| - 1]);
      var last := posts[|posts| - 1].id;
      if last > rest then last else rest
  }

  /** The id a new post should get: one past every id in use. */
  function NextPostId(posts: seq<MockPost>): (r: nat)
    ensures forall k :: 0 <= k < |posts| ==> posts[k].id < r
  {
    MaxId(posts) + 1
  }

  /** While the ids are exactly 1 .. n in order, the corrected id is the one `createPost` computes. */
  lemma {:induction false} NextPostIdWhileNumbered(posts: seq<MockPost>)
    requires forall k :: 0 <= k < |posts| ==> posts[k].id == k + 1
    ensures NextPostId(posts) == LengthPostId(posts)
  {
    if posts != [] {
      NextPostIdWhileNumbered(posts[..|posts| - 1]);
    }
  }

  /** A post of the given id from the mock's seed shape; only its id matters below. */
  function Seeded(id: nat): MockPost {
    MockPost(id, "title", "content", [], None, 0, CurrentUser, 0, 0, 0, None, None)
  }

  /**
   * The seeded store holds posts 1 .. 4. `deletePost(2)` splices out index
   * 1, and `createPost` as written then pushes a post with id 4, which post
   * 4 still has: the ids collide, and `fetchPostById(4)` keeps finding the
   * old post. With the corrected id the new post gets 5 and the ids stay
   * distinct.
   */
  lemma LengthPostIdCollidesAfterDelete(data: NewPostData, now: nat)
    ensures var seeded := [Seeded(1), Seeded(2), Seeded(3), Seeded(4)];
      var afterDelete := RemoveAt(seeded, FindIndex(seeded, WithId(2)).value);
      var asWritten := afterDelete + [NewMockPost(LengthPostId(afterDelete), data, now)];
      var corrected := afterDelete + [NewMockPost(NextPostId(afterDelete), data, now)];
      && IdsDistinct(seeded) && IdsDistinct(afterDelete)
      && LengthPostId(afterDelete) == 4
      && !IdsDistinct(asWritten)
      && FindIndex(asWritten, WithId(4)) == Some(2) && asWritten[2] == Seeded(4)
      && NextPostId(afterDelete) == 5 && IdsDistinct(corrected)
  {
    var seeded := [Seeded(1), Seeded(2), Seeded(3), Seeded(4)];
    assert FindIndex(seeded, WithId(2)) == Some(1);
    var afterDelete := RemoveAt(seeded, 1);
    assert afterDelete == [Seeded(1), Seeded(3), Seeded(4)];
    SeededMaxId();
    var pushed := NewMockPost(LengthPostId(afterDelete), data, now);
    var asWritten := afterDelete + [pushed];
    assert asWritten[2].id == 4 && pushed.id == 4;
    AppendIdsDistinct(afterDelete, pushed);
    assert FindIndex(asWritten, WithId(4)) == Some(2);
    AppendIdsDistinct(afterDelete, NewMockPost(NextPostId(afterDelete), data, now));
  }

  /** The largest id left after deleting post 2 of the seeded posts is 4. */
  lemma SeededMaxId()
    ensures MaxId([Seeded(1), Seeded(3), Seeded(4)]) == 4
  {
    var s := [Seeded(1), Seeded(3), Seeded(4)];
    assert s[..2] == [Seeded(1), Seeded(3)] && s[..2][..1] == [Seeded(1)];
    assert MaxId([Seeded(1)]) == 1;
    assert MaxId(s[..2]) == 3;
  }

  // ---------------------------------------------------------------- record builders

  /** The post `createPost` pushes for `id`. */
  function NewMockPost(id: nat, data: NewPostData, now: nat): (p: MockPost)
    ensures p.id == id && p.title == data.title && p.content == data.content
    ensures p.tags == (if data.tags.Some? then data.tags.value else [])
    ensures p.image == OrNull(data.image)
    ensures p.upvotes == 0 && p.downvotes == 0 && p.commentCount == 0 && p.userVote.None?
    ensures p.authorId == CurrentUser && p.createdAt == now && p.updatedAt.None?
  {
    MockPost(id, data.title, data.content, if data.tags.Some? then data.tags.value else [], OrNull(data.image),
             now, CurrentUser, 0, 0, 0, None, None)
  }

  /** `{ ...post, ...patch, updatedAt }`: every key present in `patch` wins, the others keep their values. */
  function Merge(p: MockPost, patch: PostPatch, now: nat): (r: MockPost)
    ensures r.title == (if patch.title.Some? then patch.title.value else p.title)
    ensures r.content == (if patch.content.Some? then patch.content.value else p.content)
    ensures r.tags == (if patch.tags.Some? then patch.tags.value else p.tags)
    ensures r.image == (if patch.image.Some? then patch.image.value else p.image)
    ensures r.updatedAt == Some(now)
    ensures r.(title := p.title, content := p.content, tags := p.tags, image := p.image, updatedAt := p.updatedAt) == p
  {
    p.(title := if patch.title.Some? then patch.title.value else p.title,
       content := if patch.content.Some? then patch.content.value else p.content,
       tags := if patch.tags.Some? then patch.tags.value else p.tags,
       image := if patch.image.Some? then patch.image.value else p.image,
       updatedAt := Some(now))
  }

  /** Applying the same patch twice at the same time is applying it once. */
  lemma MergeIdempotent(p: MockPost, patch: PostPatch, now: nat)
    ensures Merge(Merge(p, patch, now), patch, now) == Merge(p, patch, now)
  {
  }

  /** The comment `createComment` pushes. */
  function NewMockComment(id: nat, postId: nat, content: string, now: nat): MockComment {
    MockComment(id, content, now, CurrentUser, postId, 0)
  }

  function WithId(id: nat): MockPost -> bool {
    (p: MockPost) => p.id == id
  }

  function ByPost(postId: nat): MockComment -> bool {
    (c: MockComment) => c.postId == postId
  }

  function ByCurrentUser(): MockPost -> bool {
    (p: MockPost) => p.authorId == CurrentUser
  }

  class MockStore {
    var posts: seq<MockPost>
    var comments: seq<MockComment>

    ghost predicate Valid()
      reads this
    {
      CommentsNumbered(comments)
    }

    /** The store seeded with `seedPosts` and `seedComments`. */
    constructor (seedPosts: seq<MockPost>, seedComments: seq<MockComment>)
      requires CommentsNumbered(seedComments)
      ensures Valid()
      ensures posts == seedPosts && comments == seedComments
    {
      posts, comments := seedPosts, seedComments;
    }

    /** `fetchPosts(page, limit)`: the whole array, whatever page and limit ask for. */
    function FetchPosts(page: int, limit: int): (r: seq<MockPost>)
      reads this
      ensures r == posts
    {
      posts
    }

    /** `fetchPostById`: the first post with that id, or the "Post not found" error. */
    function FetchPostById(id: nat): (r: Result<MockPost, string>)
      reads this
      ensures r.Err? <==> forall k :: 0 <= k < |posts| ==> posts[k].id != id
      ensures r.Err? ==> r.error == NotFound
      ensures r.Ok? ==> exists k :: 0 <= k < |posts| && posts[k] == r.value && r.value.id == id &&
                                    forall j :: 0 <= j < k ==> posts[j].id != id
    {
      match FindIndex(posts, WithId(id))
      case None => Err(NotFound)
      case Some(i) => Ok(posts[i])
    }

    /** `fetchCommentsByPostId`: the comments on the post, in stored order. */
    function FetchCommentsByPostId(postId: nat): (r: seq<MockComment>)
      reads this
      ensures forall k :: 0 <= k < |r| ==> r[k] in comments && r[k].postId == postId
      ensures forall c :: c in comments && c.postId == postId ==> c in r
    {
      Filter(comments, ByPost(postId))
    }

    /** `fetchUserPosts`: the posts of the logged-in user, in stored order. */
    function FetchUserPosts(): (r: seq<MockPost>)
      reads this
      ensures forall k :: 0 <= k < |r| ==> r[k] in posts && r[k].authorId == CurrentUser
      ensures forall p :: p in posts && p.authorId == CurrentUser ==> p in r
    {
      Filter(posts, ByCurrentUser())
    }

    /**
     * `createPost`: pushes exactly one post, by the logged-in user, with
     * tags defaulting to [], a falsy image to null and zero counters, and
     * returns its id, one past the length of the array (see Findings). The
     * ids stay distinct exactly when no stored post already has that id.
     */
    method CreatePost(data: NewPostData, now: nat) returns (postId: nat)
      requires Valid()
      modifies this
      ensures Valid()
      ensures postId == LengthPostId(old(posts))
      ensures posts == old(posts) + [NewMockPost(postId, data, now)]
      ensures IdsDistinct(posts) <==> IdsDistinct(old(posts)) && forall k :: 0 <= k < |old(posts)| ==> old(posts)[k].id != postId
      ensures comments == old(comments)
    {
      postId := LengthPostId(posts);
      AppendIdsDistinct(posts, NewMockPost(postId, data, now));
      posts := posts + [NewMockPost(postId, data, now)];
    }

    /** `createPost` with the corrected id, one past every id in use: distinct ids stay distinct. */
    method CreatePostFreshId(data: NewPostData, now: nat) returns (postId: nat)
      requires Valid()
      modifies this
      ensures Valid()
      ensures postId == NextPostId(old(posts))
      ensures posts == old(posts) + [NewMockPost(postId, data, now)]
      ensures IdsDistinct(old(posts)) ==> IdsDistinct(posts)
      ensures comments == old(comments)
    {
      postId := NextPostId(posts);
      AppendIdsDistinct(posts, NewMockPost(postId, data, now));
      posts := posts + [NewMockPost(postId, data, now)];
    }

    /** `updatePost`: the first post with that id becomes itself overridden by the patch; an unknown id fails. */
    method UpdatePost(id: nat, patch: PostPatch, now: nat) returns (r: Result<nat, string>)
      requires Valid()
      modifies this
      ensures Valid()
      ensures (forall k :: 0 <= k < |old(posts)| ==> old(posts)[k].id != id) ==> r == Err(NotFound) && posts == old(posts)
      ensures (exists k :: 0 <= k < |old(posts)| && old(posts)[k].id == id) ==>
        var i := FindIndex(old(posts), WithId(id)).value;
        r == Ok(id) && posts == old(posts)[i := Merge(old(posts)[i], patch, now)]
      ensures IdsDistinct(old(posts)) ==> IdsDistinct(posts)
      ensures comments == old(comments)
    {
      var found := FindIndex(posts, WithId(id));
      if found.None? {
        return Err(NotFound);
      }
      var i := found.value;
      if IdsDistinct(posts) {
        ReplaceKeepsIdsDistinct(posts, i, Merge(posts[i], patch, now));
      }
      posts := posts[i := Merge(posts[i], patch, now)];
      r := Ok(id);
    }

    /**
     * `deletePost`: splices out exactly the first post with that id, the
     * others keeping their order; an unknown id fails. Comments are kept.
     */
    method DeletePost(id: nat) returns (r: Result<(), string>)
      requires Valid()
      modifies this
      ensures Valid()
      ensures (forall k :: 0 <= k < |old(posts)| ==> old(posts)[k].id != id) ==> r == Err(NotFound) && posts == old(posts)
      ensures (exists k :: 0 <= k < |old(posts)| && old(posts)[k].id == id) ==>
        var i := FindIndex(old(posts), WithId(id)).value;
        r == Ok(()) && posts == RemoveAt(old(posts), i)
      ensures IdsDistinct(old(posts)) ==> IdsDistinct(posts) && forall k :: 0 <= k < |posts| ==> posts[k].id != id
      ensures comments == old(comments)
    {
      var found := FindIndex(posts, WithId(id));
      if found.None? {
        return Err(NotFound);
      }
      var i := found.value;
      ghost var before := posts;
      posts := RemoveAt(posts, i);
      if IdsDistinct(before) {
        forall a, b | 0 <= a < b < |posts| ensures posts[a].id != posts[b].id {
          var a', b' := if a < i then a else a + 1, if b < i then b else b + 1;
          assert posts[a] == before[a'] && posts[b] == before[b'];
        }
        forall k | 0 <= k < |posts| ensures posts[k].id != id {
          var k' := if k < i then k else k + 1;
          assert posts[k] == before[k'];
        }
      }
      r := Ok(());
    }

    /**
     * `createComment`: pushes one comment numbered one past the length and
     * adds one to the comment count of the first post with that id, if any.
     */
    method CreateComment(postId: nat, content: string, now: nat) returns (comment: MockComment)
      requires Valid()
      modifies this
      ensures Valid()
      ensures comment == NewMockComment(|old(comments)| + 1, postId, content, now)
      ensures comments == old(comments) + [comment]
      ensures match FindIndex(old(posts), WithId(postId))
        case None => posts == old(posts)
        case Some(i) => posts == old(posts)[i := old(posts)[i].(commentCount := old(posts)[i].commentCount + 1)]
      ensures IdsDistinct(old(posts)) ==> IdsDistinct(posts)
    {
      comment := NewMockComment(|comments| + 1, postId, content, now);
      comments := comments + [comment];
      var found := FindIndex(posts, WithId(postId));
      if found.Some? {
        var i := found.value;
        if IdsDistinct(posts) {
          ReplaceKeepsIdsDistinct(posts, i, posts[i].(commentCount := posts[i].commentCount + 1));
        }
        posts := posts[i := posts[i].(commentCount := posts[i].commentCount + 1)];
      }
    }

    /**
     * `voteOnPost`: the first post with that id has its counters moved by
     * the shared ±1 rule and its own vote set; an unknown id fails. Nothing
     * validates the value.
     */
    method VoteOnPost(postId: nat, value: int) returns (r: Result<(), string>)
      requires Valid()
      modifies this
      ensures Valid()
      ensures (forall k :: 0 <= k < |old(posts)| ==> old(posts)[k].id != postId) ==> r == Err(NotFound) && posts == old(posts)
      ensures (exists k :: 0 <= k < |old(posts)| && old(posts)[k].id == postId) ==>
        var i := FindIndex(old(posts), WithId(postId)).value;
        var t := IncrementalVote(TallyOf(old(posts)[i]), value);
        && r == Ok(())
        && posts == old(posts)[i := old(posts)[i].(upvotes := t.up, downvotes := t.down, userVote := t.vote)]
      ensures IdsDistinct(old(posts)) ==> IdsDistinct(posts)
      ensures comments == old(comments)
    {
      var found := FindIndex(posts, WithId(postId));
      if found.None? {
        return Err(NotFound);
      }
      var i := found.value;
      var post := posts[i];
      ghost var t := IncrementalVote(TallyOf(post), value);
      if post.userVote == Some(1) && value != 1 {
        post := post.(upvotes := post.upvotes - 1);
      } else if post.userVote == Some(-1) && value != -1 {
        post := post.(downvotes := post.downvotes - 1);
      }
      if value == 1 && post.userVote != Some(1) {
        post := post.(upvotes := post.upvotes + 1);
      } else if value == -1 && post.userVote != Some(-1) {
        post := post.(downvotes := post.downvotes + 1);
      }
      post := post.(userVote := if value == 0 then None else Some(value));
      assert post == posts[i].(upvotes := t.up, downvotes := t.down, userVote := t.vote);
      if IdsDistinct(posts) {
        ReplaceKeepsIdsDistinct(posts, i, post);
      }
      posts := posts[i := post];
      r := Ok(());
    }
  }

  /** Pushing a post keeps the ids distinct exactly when its id is not in use yet. */
  lemma AppendIdsDistinct(posts: seq<MockPost>, p: MockPost)
    ensures IdsDistinct(posts + [p]) <==> IdsDistinct(posts) && forall k :: 0 <= k < |posts| ==> posts[k].id != p.id
  {
    var r := posts + [p];
    if IdsDistinct(r) {
      forall k | 0 <= k < |posts| ensures posts[k].id != p.id {
        assert r[k] == posts[k] && r[|posts|] == p;
      }
      forall a, b | 0 <= a < b < |posts| ensures posts[a].id != posts[b].id {
        assert r[a] == posts[a] && r[b] == posts[b];
      }
    }
  }

  /** Replacing a post by one with the same id keeps the ids distinct. */
  lemma ReplaceKeepsIdsDistinct(posts: seq<MockPost>, i: nat, p: MockPost)
    requires IdsDistinct(posts) && i < |posts| && p.id == posts[i].id
    ensures IdsDistinct(posts[i := p])
  {
  }

  /** `fetchCommentsByPostId` keeps the stored order: over a split store it lists the first part's comments first. */
  lemma CommentsInStoredOrder(a: seq<MockComment>, b: seq<MockComment>, postId: nat)
    ensures Filter(a + b, ByPost(postId)) == Filter(a, ByPost(postId)) + Filter(b, ByPost(postId))
  {
    FilterConcat(a, b, ByPost(postId));
  }

  /** The mock's vote keeps the counters minus the own vote's share, and voting the same value again changes nothing. */
  lemma MockVoteRules(p: MockPost, value: int)
    ensures var t := IncrementalVote(TallyOf(p), value);
      && t.vote == (if value == 0 then None else Some(value))
      && t.up - Indicator(t.vote == Some(1)) == p.upvotes - Indicator(p.userVote == Some(1))
      && t.down - Indicator(t.vote == Some(-1)) == p.downvotes - Indicator(p.userVote == Some(-1))
      && IncrementalVote(t, value) == t
  {
    IncrementalIdempotent(TallyOf(p), value);
  }
}
