/**
 * The posts and comments collections (server/models/Post.js): the post
 * document, the schema's trimming setters, required fields and defaults,
 * and the virtual `commentCount`. The comment document has the fields the
 * routes use; server/models/Comment.js is not part of this model.
 */
module PostModel {
  import opened Wrappers
  import opened Text
  import opened VoteModel

  datatype Post = Post(
    id: PostId,
    title: string,
    content: string,
    author: UserId,
    tags: seq<string>,
    image: Option<string>,
    upvotes: int,
    downvotes: int,
    createdAt: nat,
    updatedAt: nat)

  datatype Comment = Comment(id: nat, post: PostId, author: UserId, content: string, createdAt: nat)

  /** Every tag run through the schema's `trim` setter. */
  function TrimAll(tags: seq<string>): (r: seq<string>)
    ensures |r| == |tags|
    ensures forall k :: 0 <= k < |r| ==> r[k] == Trim(tags[k])
  {
    seq(|tags|, k requires 0 <= k < |tags| => Trim(tags[k]))
  }

  /** An acceptable string for a `required: true` String path: present and non-empty. */
  predicate RequiredPresent(s: string) {
    s != []
  }

  /** A saved post document: required title and content present, title and tags trimmed. */
  predicate Conforms(p: Post) {
    && RequiredPresent(p.title) && IsTrimmed(p.title)
    && RequiredPresent(p.content)
    && (forall k :: 0 <= k < |p.tags| ==> IsTrimmed(p.tags[k]))
  }

  /**
   * `new Post({...}).save()`: the title and tags pass through `trim`, the
   * counters take their default 0, both timestamps the clock. The save is
   * rejected when the trimmed title or the content is missing or empty.
   */
  function BuildPost(id: PostId, title: Option<string>, content: Option<string>, author: UserId,
                     tags: seq<string>, image: Option<string>, now: nat): (r: Option<Post>)
    ensures r.Some? <==> title.Some? && Trim(title.value) != [] && content.Some? && content.value != []
    ensures r.Some? ==> Conforms(r.value)
    ensures r.Some? ==> r.value == Post(id, Trim(title.value), content.value, author, TrimAll(tags), image, 0, 0, now, now)
  {
    if title.None? || content.None? then None
    else
      var t := Trim(title.value);
      if t == [] || content.value == [] then None
      else
        TrimIsTrimmed(title.value);
        forall k | 0 <= k < |tags| ensures IsTrimmed(TrimAll(tags)[k]) {
          TrimIsTrimmed(tags[k]);
        }
        Some(Post(id, t, content.value, author, TrimAll(tags), image, 0, 0, now, now))
  }

  /** The virtual `commentCount`: the number of comments whose `post` is `p`. */
  function CommentCount(comments: seq<Comment>, p: PostId): nat {
    if comments == [] then 0
    else (if comments[0].post == p then 1 else 0) + CommentCount(comments[1..], p)
  }

  /** `Comment.find({ post: p })` before sorting: the comments on `p`, in stored order. */
  function CommentsOn(comments: seq<Comment>, p: PostId): (r: seq<Comment>)
    ensures forall k :: 0 <= k < |r| ==> r[k] in comments && r[k].post == p
    ensures forall c :: c in comments && c.post == p ==> c in r
  {
    if comments == [] then []
    else (if comments[0].post == p then [comments[0]] else []) + CommentsOn(comments[1..], p)
  }

  /** The comment count is exactly the number of comments the comments endpoint returns for the post. */
  lemma {:induction false} CommentCountIsListed(comments: seq<Comment>, p: PostId)
    ensures CommentCount(comments, p) == |CommentsOn(comments, p)|
  {
    if comments != [] {
      CommentCountIsListed(comments[1..], p);
    }
  }

  /** Adding a comment raises the count of its own post by one and no other. */
  lemma {:induction false} CommentCountAppend(comments: seq<Comment>, c: Comment, p: PostId)
    ensures CommentCount(comments + [c], p) == CommentCount(comments, p) + (if c.post == p then 1 else 0)
  {
    if comments == [] {
      assert comments + [c] == [c];
      assert [c][1..] == [];
    } else {
      assert (comments + [c])[1..] == comments[1..] + [c];
      CommentCountAppend(comments[1..], c, p);
    }
  }

  /** `Comment.deleteMany({ post: p })`: the comments on every other post, in stored order. */
  function CommentsNotOn(comments: seq<Comment>, p: PostId): (r: seq<Comment>)
    ensures forall k :: 0 <= k < |r| ==> r[k] in comments && r[k].post != p
    ensures forall c :: c in comments && c.post != p ==> c in r
  {
    if comments == [] then []
    else (if comments[0].post == p then [] else [comments[0]]) + CommentsNotOn(comments[1..], p)
  }

  /** After the cascade the deleted post has no comments and every other post keeps its count. */
  lemma {:induction false} CommentsNotOnCount(comments: seq<Comment>, p: PostId, q: PostId)
    ensures CommentCount(CommentsNotOn(comments, p), q) == if q == p then 0 else CommentCount(comments, q)
  {
    if comments != [] {
      CommentsNotOnCount(comments[1..], p, q);
      var head := if comments[0].post == p then [] else [comments[0]];
      CommentCountConcat(head, CommentsNotOn(comments[1..], p), q);
      if head != [] { assert head[1..] == []; }
    }
  }

  /** Comment counts are additive over concatenation. */
  lemma {:induction false} CommentCountConcat(a: seq<Comment>, b: seq<Comment>, p: PostId)
    ensures CommentCount(a + b, p) == CommentCount(a, p) + CommentCount(b, p)
  {
    if a == [] {
      assert a + b == b;
    } else {
      assert (a + b)[1..] == a[1..] + b;
      CommentCountConcat(a[1..], b, p);
    }
  }

  /** `Comment.countDocuments({ author: u })`: the number of comments the user wrote. */
  function CommentsByCount(comments: seq<Comment>, u: UserId): (n: nat)
    ensures n <= |comments|
    ensures n == 0 <==> forall k :: 0 <= k < |comments| ==> comments[k].author != u
  {
    if comments == [] then 0
    else (if comments[0].author == u then 1 else 0) + CommentsByCount(comments[1..], u)
  }
}
