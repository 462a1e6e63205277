/**
 * The votes collection (server/models/Vote.js): one document per (user, post)
 * pair holding +1 or -1, and the transitions the vote endpoint applies to it.
 * A "zero" vote is never stored; it is the absence of a document.
 */
module VoteModel {
  import opened Wrappers

  /** ObjectIds of users and posts. */
  type UserId = nat
  type PostId = nat

  /** One vote document. The `user` and `post` references are required, so every record has both. */
  datatype Vote = Vote(user: UserId, post: PostId, value: int, createdAt: nat)

  /** The values the schema's `enum: [-1, 1]` admits. */
  predicate IsStoredValue(v: int) {
    v == 1 || v == -1
  }

  /** The values the vote endpoint accepts; anything else is answered with 400. */
  predicate IsSubmittedValue(v: int) {
    v == -1 || v == 0 || v == 1
  }

  /** The vote belongs to user `u` on post `p`. */
  predicate Casts(vote: Vote, u: UserId, p: PostId) {
    vote.user == u && vote.post == p
  }

  /** The unique compound index on (user, post): no two documents share a pair. */
  predicate UniquePerUserPost(votes: seq<Vote>) {
    forall i, j :: 0 <= i < j < |votes| ==> !Casts(votes[j], votes[i].user, votes[i].post)
  }

  /** Every stored value satisfies the enum. */
  predicate ValuesStored(votes: seq<Vote>) {
    forall i :: 0 <= i < |votes| ==> IsStoredValue(votes[i].value)
  }

  /** The invariants the schema places on the collection. */
  predicate WellFormed(votes: seq<Vote>) {
    ValuesStored(votes) && UniquePerUserPost(votes)
  }

  /** `Vote.findOne({ post: p, user: u })`: the position of the first document of the pair. */
  function FindVote(votes: seq<Vote>, u: UserId, p: PostId): (r: Option<nat>)
    ensures r.Some? ==> r.value < |votes| && Casts(votes[r.value], u, p)
    ensures r.Some? ==> forall k :: 0 <= k < r.value ==> !Casts(votes[k], u, p)
    ensures r.None? ==> forall k :: 0 <= k < |votes| ==> !Casts(votes[k], u, p)
  {
    if votes == [] then None
    else if Casts(votes[0], u, p) then Some(0)
    else match FindVote(votes[1..], u, p)
      case None => None
      case Some(i) => Some(i + 1)
  }

  /** The value the user has stored on the post, or None when there is no vote. */
  function LookupVote(votes: seq<Vote>, u: UserId, p: PostId): Option<int> {
    match FindVote(votes, u, p)
    case None => None
    case Some(i) => Some(votes[i].value)
  }

  /** Under the unique index a lookup finds the pair's one document wherever it is. */
  lemma LookupUnique(votes: seq<Vote>, u: UserId, p: PostId, i: nat)
    requires UniquePerUserPost(votes)
    requires i < |votes| && Casts(votes[i], u, p)
    ensures FindVote(votes, u, p) == Some(i)
    ensures LookupVote(votes, u, p) == Some(votes[i].value)
  {
  }

  /** `Vote.countDocuments({ post: p, value: x })`. */
  function CountValue(votes: seq<Vote>, p: PostId, x: int): nat {
    if votes == [] then 0
    else (if votes[0].post == p && votes[0].value == x then 1 else 0) + CountValue(votes[1..], p, x)
  }

  /** The post's upvote tally recounted from the store. */
  function Upvotes(votes: seq<Vote>, p: PostId): nat {
    CountValue(votes, p, 1)
  }

  /** The post's downvote tally recounted from the store. */
  function Downvotes(votes: seq<Vote>, p: PostId): nat {
    CountValue(votes, p, -1)
  }

  /** Counting is additive over concatenation. */
  lemma {:induction false} CountConcat(a: seq<Vote>, b: seq<Vote>, p: PostId, x: int)
    ensures CountValue(a + b, p, x) == CountValue(a, p, x) + CountValue(b, p, x)
  {
    if a != [] {
      assert (a + b)[1..] == a[1..] + b;
      CountConcat(a[1..], b, p, x);
    } else {
      assert a + b == b;
    }
  }

  /** The count contributed by one document. */
  lemma CountSingle(v: Vote, p: PostId, x: int)
    ensures CountValue([v], p, x) == if v.post == p && v.value == x then 1 else 0
  {
    assert [v][1..] == [];
  }

  /** Splitting a sequence around position `i`. */
  lemma CountAround(votes: seq<Vote>, i: nat, p: PostId, x: int)
    requires i < |votes|
    ensures CountValue(votes, p, x)
         == CountValue(votes[..i], p, x) + CountValue([votes[i]], p, x) + CountValue(votes[i + 1..], p, x)
  {
    assert votes == votes[..i] + ([votes[i]] + votes[i + 1..]);
    CountConcat(votes[..i], [votes[i]] + votes[i + 1..], p, x);
    CountConcat([votes[i]], votes[i + 1..], p, x);
  }

  /**
   * The POST /:id/vote transition on the collection, given a validated value:
   * an existing vote is deleted for 0 and overwritten otherwise; a missing
   * vote is inserted for a non-zero value; 0 without a vote changes nothing.
   */
  function SetVote(votes: seq<Vote>, u: UserId, p: PostId, value: int, now: nat): seq<Vote> {
    match FindVote(votes, u, p)
    case Some(i) =>
      if value == 0 then votes[..i] + votes[i + 1..]
      else votes[i := votes[i].(value := value)]
    case None =>
      if value != 0 then votes + [Vote(u, p, value, now)] else votes
  }

  /** The documents of every pair other than (u, p), in stored order. */
  function VotesExcept(votes: seq<Vote>, u: UserId, p: PostId): (r: seq<Vote>)
    ensures forall k :: 0 <= k < |r| ==> r[k] in votes && !Casts(r[k], u, p)
  {
    if votes == [] then []
    else (if Casts(votes[0], u, p) then [] else [votes[0]]) + VotesExcept(votes[1..], u, p)
  }

  /** Filtering out one pair distributes over concatenation. */
  lemma {:induction false} VotesExceptConcat(a: seq<Vote>, b: seq<Vote>, u: UserId, p: PostId)
    ensures VotesExcept(a + b, u, p) == VotesExcept(a, u, p) + VotesExcept(b, u, p)
  {
    if a != [] {
      assert (a + b)[1..] == a[1..] + b;
      VotesExceptConcat(a[1..], b, u, p);
    } else {
      assert a + b == b;
    }
  }

  /** The vote endpoint leaves the documents of every other (user, post) pair exactly as they were. */
  lemma SetVoteOthersUntouched(votes: seq<Vote>, u: UserId, p: PostId, value: int, now: nat)
    ensures VotesExcept(SetVote(votes, u, p, value, now), u, p) == VotesExcept(votes, u, p)
  {
    var w := Vote(u, p, value, now);
    assert VotesExcept([w], u, p) == [];
    match FindVote(votes, u, p)
    case Some(i) =>
      assert votes == votes[..i] + [votes[i]] + votes[i + 1..];
      VotesExceptConcat(votes[..i] + [votes[i]], votes[i + 1..], u, p);
      VotesExceptConcat(votes[..i], [votes[i]], u, p);
      assert VotesExcept([votes[i]], u, p) == [];
      if value == 0 {
        VotesExceptConcat(votes[..i], votes[i + 1..], u, p);
      } else {
        var v' := votes[i].(value := value);
        assert votes[i := v'] == votes[..i] + [v'] + votes[i + 1..];
        VotesExceptConcat(votes[..i] + [v'], votes[i + 1..], u, p);
        VotesExceptConcat(votes[..i], [v'], u, p);
        assert VotesExcept([v'], u, p) == [];
      }
    case None =>
      if value != 0 {
        VotesExceptConcat(votes, [w], u, p);
      }
  }

  /** After a vote the pair holds exactly the submitted value (none for 0); every other pair keeps its own. */
  lemma SetVoteLookup(votes: seq<Vote>, u: UserId, p: PostId, value: int, now: nat, u': UserId, p': PostId)
    requires UniquePerUserPost(votes)
    ensures LookupVote(SetVote(votes, u, p, value, now), u', p')
         == if u' == u && p' == p then (if value == 0 then None else Some(value))
            else LookupVote(votes, u', p')
  {
    SetVoteUnique(votes, u, p, value, now);
    match FindVote(votes, u, p)
    case Some(i) =>
      if value == 0 {
        RemovedLookup(votes, u, p, i, u', p');
      } else {
        OverwrittenLookup(votes, u, p, i, value, u', p');
      }
    case None =>
      if value != 0 {
        InsertedLookup(votes, u, p, value, now, u', p');
      }
  }

  /** Deleting the pair's document leaves the pair without a vote and every other pair as it was. */
  lemma RemovedLookup(votes: seq<Vote>, u: UserId, p: PostId, i: nat, u': UserId, p': PostId)
    requires UniquePerUserPost(votes) && FindVote(votes, u, p) == Some(i)
    requires UniquePerUserPost(votes[..i] + votes[i + 1..])
    ensures LookupVote(votes[..i] + votes[i + 1..], u', p')
         == if u' == u && p' == p then None else LookupVote(votes, u', p')
  {
    var r := votes[..i] + votes[i + 1..];
    assert |r| == |votes| - 1;
    assert forall k :: 0 <= k < i ==> r[k] == votes[k];
    assert forall k :: i <= k < |r| ==> r[k] == votes[k + 1];
    DroppedLookup(votes, r, u, p, i, u', p');
  }

  /** The lookup in `votes` with position `i` dropped, described element by element. */
  lemma DroppedLookup(votes: seq<Vote>, r: seq<Vote>, u: UserId, p: PostId, i: nat, u': UserId, p': PostId)
    requires UniquePerUserPost(votes) && FindVote(votes, u, p) == Some(i)
    requires UniquePerUserPost(r) && |r| == |votes| - 1
    requires forall k :: 0 <= k < i ==> r[k] == votes[k]
    requires forall k :: i <= k < |r| ==> r[k] == votes[k + 1]
    ensures LookupVote(r, u', p') == if u' == u && p' == p then None else LookupVote(votes, u', p')
  {
    if u' == u && p' == p {
      forall k | 0 <= k < |r| ensures !Casts(r[k], u, p) {
        if k < i {
          assert r[k] == votes[k];
        } else {
          assert r[k] == votes[k + 1];
          assert !Casts(votes[k + 1], votes[i].user, votes[i].post);
        }
      }
    } else {
      match FindVote(votes, u', p')
      case None =>
        forall k | 0 <= k < |r| ensures !Casts(r[k], u', p') {
          if k < i { assert r[k] == votes[k]; } else { assert r[k] == votes[k + 1]; }
        }
      case Some(j) =>
        assert j != i;
        var j' := if j < i then j else j - 1;
        assert r[j'] == votes[j];
        LookupUnique(r, u', p', j');
    }
  }

  /** Overwriting the pair's document gives the pair the new value and leaves every other pair as it was. */
  lemma OverwrittenLookup(votes: seq<Vote>, u: UserId, p: PostId, i: nat, value: int, u': UserId, p': PostId)
    requires UniquePerUserPost(votes) && FindVote(votes, u, p) == Some(i)
    requires UniquePerUserPost(votes[i := votes[i].(value := value)])
    ensures LookupVote(votes[i := votes[i].(value := value)], u', p')
         == if u' == u && p' == p then Some(value) else LookupVote(votes, u', p')
  {
    var r := votes[i := votes[i].(value := value)];
    if u' == u && p' == p {
      LookupUnique(r, u, p, i);
    } else {
      match FindVote(votes, u', p')
      case None =>
        forall k | 0 <= k < |r| ensures !Casts(r[k], u', p') {
          if k != i { assert r[k] == votes[k]; }
        }
      case Some(j) =>
        LookupUnique(r, u', p', j);
    }
  }

  /** Inserting a document for a pair without one gives it the value and leaves every other pair as it was. */
  lemma InsertedLookup(votes: seq<Vote>, u: UserId, p: PostId, value: int, now: nat, u': UserId, p': PostId)
    requires UniquePerUserPost(votes) && FindVote(votes, u, p).None?
    requires UniquePerUserPost(votes + [Vote(u, p, value, now)])
    ensures LookupVote(votes + [Vote(u, p, value, now)], u', p')
         == if u' == u && p' == p then Some(value) else LookupVote(votes, u', p')
  {
    var r := votes + [Vote(u, p, value, now)];
    if u' == u && p' == p {
      LookupUnique(r, u, p, |votes|);
    } else {
      match FindVote(votes, u', p')
      case None =>
        forall k | 0 <= k < |r| ensures !Casts(r[k], u', p') {
          if k < |votes| { assert r[k] == votes[k]; }
        }
      case Some(j) =>
        assert r[j] == votes[j];
        LookupUnique(r, u', p', j);
    }
  }

  /** The unique index survives every transition. */
  lemma SetVoteUnique(votes: seq<Vote>, u: UserId, p: PostId, value: int, now: nat)
    requires UniquePerUserPost(votes)
    ensures UniquePerUserPost(SetVote(votes, u, p, value, now))
  {
    var r := SetVote(votes, u, p, value, now);
    match FindVote(votes, u, p)
    case Some(i) =>
      if value == 0 {
        forall a, b | 0 <= a < b < |r| ensures !Casts(r[b], r[a].user, r[a].post) {
          var a' := if a < i then a else a + 1;
          var b' := if b < i then b else b + 1;
          assert r[a] == votes[a'] && r[b] == votes[b'];
        }
      } else {
        forall a, b | 0 <= a < b < |r| ensures !Casts(r[b], r[a].user, r[a].post) {
          assert Casts(r[a], votes[a].user, votes[a].post) && Casts(r[b], votes[b].user, votes[b].post);
        }
      }
    case None =>
  }

  /** With a validated value, the transitions keep the collection well formed. */
  lemma SetVoteWellFormed(votes: seq<Vote>, u: UserId, p: PostId, value: int, now: nat)
    requires WellFormed(votes) && IsSubmittedValue(value)
    ensures WellFormed(SetVote(votes, u, p, value, now))
  {
    SetVoteUnique(votes, u, p, value, now);
    var r := SetVote(votes, u, p, value, now);
    match FindVote(votes, u, p)
    case Some(i) =>
      if value == 0 {
        forall k | 0 <= k < |r| ensures IsStoredValue(r[k].value) {
          if k >= i { assert r[k] == votes[k + 1]; }
        }
      }
    case None =>
  }

  /**
   * The recount after a vote: the tally of value x on post q loses the
   * user's previous vote if it was x and gains the new one if it is x;
   * tallies of every other post are unchanged.
   */
  lemma SetVoteCounts(votes: seq<Vote>, u: UserId, p: PostId, value: int, now: nat, q: PostId, x: int)
    ensures CountValue(SetVote(votes, u, p, value, now), q, x)
         == CountValue(votes, q, x)
            - (if q == p && LookupVote(votes, u, p) == Some(x) then 1 else 0)
            + (if q == p && value == x && value != 0 then 1 else 0)
  {
    match FindVote(votes, u, p)
    case Some(i) =>
      CountAround(votes, i, q, x);
      CountSingle(votes[i], q, x);
      if value == 0 {
        CountConcat(votes[..i], votes[i + 1..], q, x);
      } else {
        var r := votes[i := votes[i].(value := value)];
        assert r[..i] == votes[..i] && r[i + 1..] == votes[i + 1..];
        CountAround(r, i, q, x);
        CountSingle(r[i], q, x);
      }
    case None =>
      if value != 0 {
        CountConcat(votes, [Vote(u, p, value, now)], q, x);
        CountSingle(Vote(u, p, value, now), q, x);
      }
  }

  /** Re-submitting the value just submitted changes nothing: the server does not toggle. */
  lemma SetVoteIdempotent(votes: seq<Vote>, u: UserId, p: PostId, value: int, now: nat, later: nat)
    requires UniquePerUserPost(votes)
    ensures SetVote(SetVote(votes, u, p, value, now), u, p, value, later) == SetVote(votes, u, p, value, now)
  {
    var r := SetVote(votes, u, p, value, now);
    SetVoteLookup(votes, u, p, value, now, u, p);
    SetVoteUnique(votes, u, p, value, now);
    if value != 0 {
      var i := FindVote(r, u, p).value;
      assert r[i].value == value;
      assert r[i := r[i].(value := value)] == r;
    }
  }

  /** `Vote.deleteMany({ post: p })`: the documents of every other post, in stored order. */
  function VotesNotOn(votes: seq<Vote>, p: PostId): (r: seq<Vote>)
    ensures |r| <= |votes|
    ensures forall k :: 0 <= k < |r| ==> r[k] in votes && r[k].post != p
  {
    if votes == [] then []
    else (if votes[0].post == p then [] else [votes[0]]) + VotesNotOn(votes[1..], p)
  }

  /** Deleting a post's votes leaves its tallies at zero and every other post's tallies unchanged. */
  lemma {:induction false} VotesNotOnCounts(votes: seq<Vote>, p: PostId, q: PostId, x: int)
    ensures CountValue(VotesNotOn(votes, p), q, x) == if q == p then 0 else CountValue(votes, q, x)
  {
    if votes != [] {
      VotesNotOnCounts(votes[1..], p, q, x);
      var head := if votes[0].post == p then [] else [votes[0]];
      CountConcat(head, VotesNotOn(votes[1..], p), q, x);
      if head != [] { CountSingle(votes[0], q, x); }
    }
  }

  /** The cascade leaves a whole, well-formed collection: it keeps a subsequence of the documents. */
  lemma {:induction false} VotesNotOnWellFormed(votes: seq<Vote>, p: PostId)
    requires WellFormed(votes)
    ensures WellFormed(VotesNotOn(votes, p))
  {
    if votes != [] {
      var tail := votes[1..];
      assert WellFormed(tail);
      VotesNotOnWellFormed(tail, p);
      var r := VotesNotOn(votes, p);
      var rt := VotesNotOn(tail, p);
      if votes[0].post != p {
        assert r == [votes[0]] + rt;
        forall k | 0 <= k < |rt| ensures !Casts(rt[k], votes[0].user, votes[0].post) {
          var j :| 0 <= j < |tail| && tail[j] == rt[k];
          assert votes[j + 1] == rt[k];
        }
        forall a, b | 0 <= a < b < |r| ensures !Casts(r[b], r[a].user, r[a].post) {
          if a > 0 { assert r[a] == rt[a - 1] && r[b] == rt[b - 1]; }
          else { assert r[b] == rt[b - 1]; }
        }
      } else {
        assert r == rt;
      }
    }
  }

  /** The sum of the values stored on post `p`: the post's net score. */
  function NetScore(votes: seq<Vote>, p: PostId): int {
    if votes == [] then 0
    else (if votes[0].post == p then votes[0].value else 0) + NetScore(votes[1..], p)
  }

  /** Because only +1 and -1 are stored, upvotes minus downvotes is the sum of the post's vote values. */
  lemma {:induction false} TallyDifferenceIsNetScore(votes: seq<Vote>, p: PostId)
    requires ValuesStored(votes)
    ensures Upvotes(votes, p) - Downvotes(votes, p) == NetScore(votes, p)
  {
    if votes != [] {
      assert ValuesStored(votes[1..]);
      TallyDifferenceIsNetScore(votes[1..], p);
    }
  }

  /** A transition only writes documents of post `p`; every other document it keeps comes from the old collection. */
  lemma SetVoteKeepsOrTargets(votes: seq<Vote>, u: UserId, p: PostId, value: int, now: nat)
    ensures forall k :: 0 <= k < |SetVote(votes, u, p, value, now)| ==>
              SetVote(votes, u, p, value, now)[k].post == p || SetVote(votes, u, p, value, now)[k] in votes
  {
    var r := SetVote(votes, u, p, value, now);
    match FindVote(votes, u, p)
    case Some(i) =>
      if value == 0 {
        forall k | 0 <= k < |r| ensures r[k] in votes {
          if k < i { assert r[k] == votes[k]; } else { assert r[k] == votes[k + 1]; }
        }
      }
    case None =>
  }
}
