/**
 * The server's database: the users, posts, comments and votes collections
 * that the route handlers read and change, with the consistency every
 * handler preserves. ObjectIds are drawn from a counter.
 */
module ServerStore {
  import opened Wrappers
  import opened Search
  import opened VoteModel
  import opened PostModel

  /** A user document with the fields the routes use; server/models/User.js is not part of this model. */
  datatype User = User(
    id: UserId,
    name: string,
    email: string,
    password: string,
    avatar: Option<string>,
    bio: Option<string>,
    isModerator: bool)

  /** A user as `.select("-password")` returns it: there is no password field to leak. */
  datatype PublicUser = PublicUser(
    id: UserId,
    name: string,
    email: string,
    avatar: Option<string>,
    bio: Option<string>,
    isModerator: bool)

  /** HTTP status codes the handlers answer with. */
  datatype Status = Ok200 | Created201 | BadRequest400 | Forbidden403 | NotFound404 | ServerError500

  function Public(u: User): PublicUser {
    PublicUser(u.id, u.name, u.email, u.avatar, u.bio, u.isModerator)
  }

  /** `Post.findById(id)`. */
  function FindPost(posts: seq<Post>, id: PostId): (r: Option<nat>)
    ensures r.Some? ==> r.value < |posts| && posts[r.value].id == id
    ensures r.None? <==> forall k :: 0 <= k < |posts| ==> posts[k].id != id
  {
    FindIndex(posts, (p: Post) => p.id == id)
  }

  /** `User.findById(id)` is the first-match search `FindIndex(users, WithUserId(id))`. */
  function WithUserId(id: UserId): User -> bool {
    (u: User) => u.id == id
  }

  /** `User.findOne({ email })` is the first-match search `FindIndex(users, WithEmail(email))`. */
  function WithEmail(email: string): User -> bool {
    (u: User) => u.email == email
  }

  /** Some post has id `id`. */
  predicate HasPost(posts: seq<Post>, id: PostId) {
    exists k :: 0 <= k < |posts| && posts[k].id == id
  }

  predicate PostIdsUnique(posts: seq<Post>) {
    forall i, j :: 0 <= i < j < |posts| ==> posts[i].id != posts[j].id
  }

  predicate UserIdsUnique(users: seq<User>) {
    forall i, j :: 0 <= i < j < |users| ==> users[i].id != users[j].id
  }

  /** Registration refuses a taken email, so no two users share one. */
  predicate EmailsUnique(users: seq<User>) {
    forall i, j :: 0 <= i < j < |users| ==> users[i].email != users[j].email
  }

  predicate CommentIdsUnique(comments: seq<Comment>) {
    forall i, j :: 0 <= i < j < |comments| ==> comments[i].id != comments[j].id
  }

  /** Every id handed out so far is below the counter, so the next one is fresh. */
  predicate IdsBelow(users: seq<User>, posts: seq<Post>, comments: seq<Comment>, nextId: nat) {
    && (forall k :: 0 <= k < |users| ==> users[k].id < nextId)
    && (forall k :: 0 <= k < |posts| ==> posts[k].id < nextId)
    && (forall k :: 0 <= k < |comments| ==> comments[k].id < nextId)
  }

  /** Votes and comments only reference posts that exist: the delete cascade removes the rest. */
  predicate ReferencesExist(posts: seq<Post>, comments: seq<Comment>, votes: seq<Vote>) {
    && (forall k :: 0 <= k < |votes| ==> HasPost(posts, votes[k].post))
    && (forall k :: 0 <= k < |comments| ==> HasPost(posts, comments[k].post))
  }

  /** Every post's cached counters equal the recount over the votes collection. */
  predicate TalliesAgree(posts: seq<Post>, votes: seq<Vote>) {
    forall k :: 0 <= k < |posts| ==>
      posts[k].upvotes == Upvotes(votes, posts[k].id) && posts[k].downvotes == Downvotes(votes, posts[k].id)
  }

  predicate PostsConform(posts: seq<Post>) {
    forall k :: 0 <= k < |posts| ==> Conforms(posts[k])
  }

  /** The consistency of the whole database that every handler preserves. */
  predicate Consistent(users: seq<User>, posts: seq<Post>, comments: seq<Comment>, votes: seq<Vote>, nextId: nat) {
    && UserIdsUnique(users) && EmailsUnique(users)
    && PostIdsUnique(posts) && PostsConform(posts)
    && CommentIdsUnique(comments)
    && IdsBelow(users, posts, comments, nextId)
    && WellFormed(votes)
    && ReferencesExist(posts, comments, votes)
    && TalliesAgree(posts, votes)
  }

  /** Under unique ids, `findById` finds the one post with that id. */
  lemma FindPostUnique(posts: seq<Post>, id: PostId, i: nat)
    requires PostIdsUnique(posts) && i < |posts| && posts[i].id == id
    ensures FindPost(posts, id) == Some(i)
  {
  }

  /** A post nobody has voted on has zero tallies. */
  lemma {:induction false} CountNotReferenced(votes: seq<Vote>, p: PostId, x: int)
    requires forall k :: 0 <= k < |votes| ==> votes[k].post != p
    ensures CountValue(votes, p, x) == 0
  {
    if votes != [] {
      CountNotReferenced(votes[1..], p, x);
    }
  }

  class Db {
    var users: seq<User>
    var posts: seq<Post>
    var comments: seq<Comment>
    var votes: seq<Vote>
    var nextId: nat

    ghost predicate Valid()
      reads this
    {
      Consistent(users, posts, comments, votes, nextId)
    }

    /** An empty database. */
    constructor ()
      ensures Valid()
      ensures users == [] && posts == [] && comments == [] && votes == []
    {
      users, posts, comments, votes, nextId := [], [], [], [], 0;
    }
  }
}
