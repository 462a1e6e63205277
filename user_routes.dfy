/**
 * The user routes (server/routes/users.js): the requester's profile with
 * its comment count and reputation, the requester's own posts, and the
 * partial profile update.
 */
module UserRoutes {
  import opened Wrappers
  import opened Text
  import opened Search
  import opened Sorting
  import opened VoteModel
  import opened PostModel
  import opened ServerStore
  import opened PostRoutes

  /** `Post.find({ author: u })`: the posts `u` wrote, in stored order. */
  function AuthoredBy(posts: seq<Post>, u: UserId): (r: seq<Post>)
    ensures forall k :: 0 <= k < |r| ==> r[k] in posts && r[k].author == u
    ensures forall p :: p in posts && p.author == u ==> p in r
  {
    Filter(posts, (p: Post) => p.author == u)
  }

  /** One post's contribution to its author's reputation. */
  function Net(p: Post): int {
    p.upvotes - p.downvotes
  }

  /** The sum of `upvotes - downvotes` over `posts`. */
  function Reputation(posts: seq<Post>): int {
    if posts == [] then 0 else Reputation(posts[..|posts| - 1]) + Net(posts[|posts| - 1])
  }

  /** Reputation adds up over the parts of a sequence of posts. */
  lemma {:induction false} ReputationConcat(a: seq<Post>, b: seq<Post>)
    ensures Reputation(a + b) == Reputation(a) + Reputation(b)
  {
    if b == [] {
      assert a + b == a;
    } else {
      assert (a + b)[..|a + b| - 1] == a + b[..|b| - 1];
      ReputationConcat(a, b[..|b| - 1]);
    }
  }

  /** A sequence of posts sums to the sum of its first post and the rest. */
  lemma ReputationCons(p: Post, rest: seq<Post>)
    ensures Reputation([p] + rest) == Net(p) + Reputation(rest)
  {
    ReputationConcat([p], rest);
    assert [p][..0] == [];
  }

  /** Someone without posts has reputation 0. */
  lemma ReputationWithoutPosts(posts: seq<Post>, u: UserId)
    requires forall k :: 0 <= k < |posts| ==> posts[k].author != u
    ensures Reputation(AuthoredBy(posts, u)) == 0
  {
  }

  /** The sum of the net scores that the votes collection gives the posts. */
  function VotedReputation(posts: seq<Post>, votes: seq<Vote>): int {
    if posts == [] then 0 else VotedReputation(posts[..|posts| - 1], votes) + NetScore(votes, posts[|posts| - 1].id)
  }

  /** With consistent tallies, reputation is the net score of the votes cast on one's posts. */
  lemma {:induction false} ReputationFromVotes(posts: seq<Post>, votes: seq<Vote>)
    requires ValuesStored(votes) && TalliesAgree(posts, votes)
    ensures Reputation(posts) == VotedReputation(posts, votes)
  {
    if posts != [] {
      var init := posts[..|posts| - 1];
      assert TalliesAgree(init, votes) by {
        forall k | 0 <= k < |init| ensures init[k] == posts[k] { }
      }
      ReputationFromVotes(init, votes);
      TallyDifferenceIsNetScore(votes, posts[|posts| - 1].id);
    }
  }

  /** The body of GET /profile. */
  datatype Profile = Profile(user: PublicUser, commentCount: nat, reputation: int)

  /**
   * GET /profile: 404 when the requester is not a user; otherwise the user
   * without the password, the number of comments they wrote, and their
   * reputation accumulated post by post.
   */
  method GetProfile(db: Db, requester: UserId) returns (r: Result<Profile, Status>)
    ensures r.Err? <==> forall k :: 0 <= k < |db.users| ==> db.users[k].id != requester
    ensures r.Err? ==> r.error == NotFound404
    ensures r.Ok? ==> r.value.user.id == requester && exists k :: 0 <= k < |db.users| && r.value.user == Public(db.users[k])
    ensures r.Ok? ==> r.value.commentCount == CommentsByCount(db.comments, requester)
    ensures r.Ok? ==> r.value.reputation == Reputation(AuthoredBy(db.posts, requester))
  {
    var found := FindIndex(db.users, WithUserId(requester));
    if found.None? {
      return Err(NotFound404);
    }
    var mine := AuthoredBy(db.posts, requester);
    var reputation := 0;
    for i := 0 to |mine|
      invariant reputation == Reputation(mine[..i])
    {
      assert mine[..i + 1][..i] == mine[..i];
      reputation := reputation + mine[i].upvotes - mine[i].downvotes;
    }
    assert mine[..|mine|] == mine;
    r := Ok(Profile(Public(db.users[found.value]), CommentsByCount(db.comments, requester), reputation));
  }

  /** A post as GET /posts returns it. */
  datatype OwnPost = OwnPost(post: Post, commentCount: nat)

  /** GET /posts: the requester's posts, newest first, each with its comment count. */
  function UserPosts(posts: seq<Post>, comments: seq<Comment>, u: UserId): (r: seq<OwnPost>)
    ensures |r| == |AuthoredBy(posts, u)|
    ensures forall k :: 0 <= k < |r| ==> r[k].post == NewestFirst(AuthoredBy(posts, u))[k]
    ensures forall k :: 0 <= k < |r| ==> r[k].commentCount == |CommentsOn(comments, r[k].post.id)|
  {
    var sorted := NewestFirst(AuthoredBy(posts, u));
    forall k | 0 <= k < |sorted| ensures CommentCount(comments, sorted[k].id) == |CommentsOn(comments, sorted[k].id)| {
      CommentCountIsListed(comments, sorted[k].id);
    }
    seq(|sorted|, k requires 0 <= k < |sorted| => OwnPost(sorted[k], CommentCount(comments, sorted[k].id)))
  }

  /** GET /posts lists every post of the requester, only those, newest first. */
  lemma UserPostsExactly(posts: seq<Post>, comments: seq<Comment>, u: UserId)
    ensures var r := UserPosts(posts, comments, u);
      && (forall k :: 0 <= k < |r| ==> r[k].post in posts && r[k].post.author == u)
      && (forall p :: p in posts && p.author == u ==> exists k :: 0 <= k < |r| && r[k].post == p)
      && (forall i, j :: 0 <= i < j < |r| ==> r[i].post.createdAt >= r[j].post.createdAt)
  {
    var r := UserPosts(posts, comments, u);
    var sorted := NewestFirst(AuthoredBy(posts, u));
    assert forall k :: 0 <= k < |r| ==> r[k].post == sorted[k];
    SortedPostsExactly(posts, u);
  }

  /** The requester's posts sorted newest first are exactly the posts they wrote. */
  lemma SortedPostsExactly(posts: seq<Post>, u: UserId)
    ensures var sorted := NewestFirst(AuthoredBy(posts, u));
      && (forall k :: 0 <= k < |sorted| ==> sorted[k] in posts && sorted[k].author == u)
      && (forall p :: p in posts && p.author == u ==> exists k :: 0 <= k < |sorted| && sorted[k] == p)
  {
    var mine := AuthoredBy(posts, u);
    var sorted := NewestFirst(mine);
    NewestFirstKeepsElements(mine);
    forall k | 0 <= k < |sorted| ensures sorted[k] in posts && sorted[k].author == u {
      assert sorted[k] in mine;
      var j :| 0 <= j < |mine| && mine[j] == sorted[k];
    }
    forall p | p in posts && p.author == u ensures exists k :: 0 <= k < |sorted| && sorted[k] == p {
      assert p in sorted;
    }
  }

  /**
   * The fields PUT /profile writes: `name` and `avatar` only when the new
   * value is truthy, `bio` whenever the key is not undefined (an empty
   * string and null included); nothing else. For `bio`, the outer Option
   * says whether the key is defined and the inner one whether it is null.
   */
  function PatchProfile(user: User, name: Option<string>, avatar: Option<string>, bio: Option<Option<string>>): (r: User)
    ensures r.name == (if Truthy(name) then name.value else user.name)
    ensures r.avatar == (if Truthy(avatar) then avatar else user.avatar)
    ensures r.bio == (if bio.Some? then bio.value else user.bio)
    ensures r.(name := user.name, avatar := user.avatar, bio := user.bio) == user
  {
    var u1 := if Truthy(name) then user.(name := name.value) else user;
    var u2 := if Truthy(avatar) then u1.(avatar := avatar) else u1;
    if bio.Some? then u2.(bio := bio.value) else u2
  }

  /** Sending the same profile update twice is the same as sending it once. */
  lemma PatchProfileIdempotent(user: User, name: Option<string>, avatar: Option<string>, bio: Option<Option<string>>)
    ensures PatchProfile(PatchProfile(user, name, avatar, bio), name, avatar, bio) == PatchProfile(user, name, avatar, bio)
  {
  }

  /** Rewriting one user's profile fields keeps the database consistent. */
  lemma PatchProfileConsistent(users: seq<User>, posts: seq<Post>, comments: seq<Comment>, votes: seq<Vote>,
                               nextId: nat, i: nat, name: Option<string>, avatar: Option<string>, bio: Option<Option<string>>)
    requires Consistent(users, posts, comments, votes, nextId) && i < |users|
    ensures Consistent(users[i := PatchProfile(users[i], name, avatar, bio)], posts, comments, votes, nextId)
  {
    var us := users[i := PatchProfile(users[i], name, avatar, bio)];
    assert forall k :: 0 <= k < |us| ==> us[k].id == users[k].id && us[k].email == users[k].email;
  }

  /** PUT /profile: 404 when the requester is not a user; otherwise the patched user, without the password. */
  method UpdateProfile(db: Db, requester: UserId, name: Option<string>, avatar: Option<string>, bio: Option<Option<string>>)
    returns (r: Result<PublicUser, Status>)
    requires db.Valid()
    modifies db
    ensures db.Valid()
    ensures !(exists k :: 0 <= k < |old(db.users)| && old(db.users)[k].id == requester) ==>
      r == Err(NotFound404) && unchanged(db)
    ensures (exists k :: 0 <= k < |old(db.users)| && old(db.users)[k].id == requester) ==>
      var i := FindIndex(old(db.users), WithUserId(requester)).value;
      && db.users == old(db.users)[i := PatchProfile(old(db.users)[i], name, avatar, bio)]
      && r == Ok(Public(db.users[i]))
      && db.posts == old(db.posts) && db.comments == old(db.comments)
      && db.votes == old(db.votes) && db.nextId == old(db.nextId)
  {
    var found := FindIndex(db.users, WithUserId(requester));
    if found.None? {
      return Err(NotFound404);
    }
    var i := found.value;
    PatchProfileConsistent(db.users, db.posts, db.comments, db.votes, db.nextId, i, name, avatar, bio);
    var user := db.users[i];
    if Truthy(name) {
      user := user.(name := name.value);
    }
    if Truthy(avatar) {
      user := user.(avatar := avatar);
    }
    if bio.Some? {
      user := user.(bio := bio.value);
    }
    db.users := db.users[i := user];
    r := Ok(Public(user));
  }
}
