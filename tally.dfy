/**
 * The client's incremental vote counters. The mock store's `voteOnPost`
 * (src/services/api.js) and the optimistic update of `VoteButtons`
 * (src/components/VoteButtons.jsx) apply the same rule: adjust the counters
 * by one from the previous vote instead of recounting. This module states
 * that rule once and proves it agrees with the server's recount.
 */
module Tally {
  import opened Wrappers
  import opened VoteModel

  /** A client's view of one post: its own vote (None for null) and the two counters. */
  datatype Tally = Tally(vote: Option<int>, up: int, down: int)

  /** 1 when `b` holds, else 0. */
  function Indicator(b: bool): int {
    if b then 1 else 0
  }

  /**
   * The ±1 rule: leaving +1 takes one upvote away, leaving -1 one
   * downvote; arriving at +1 adds an upvote, at -1 a downvote; the own
   * vote becomes null for 0 and the value otherwise. The counters minus
   * the own vote's share stay fixed.
   */
  function IncrementalVote(t: Tally, value: int): (r: Tally)
    ensures r.vote == if value == 0 then None else Some(value)
    ensures r.up - Indicator(r.vote == Some(1)) == t.up - Indicator(t.vote == Some(1))
    ensures r.down - Indicator(r.vote == Some(-1)) == t.down - Indicator(t.vote == Some(-1))
  {
    var (up1, down1) :=
      if t.vote == Some(1) && value != 1 then (t.up - 1, t.down)
      else if t.vote == Some(-1) && value != -1 then (t.up, t.down - 1)
      else (t.up, t.down);
    var (up2, down2) :=
      if value == 1 && t.vote != Some(1) then (up1 + 1, down1)
      else if value == -1 && t.vote != Some(-1) then (up1, down1 + 1)
      else (up1, down1);
    Tally(if value == 0 then None else Some(value), up2, down2)
  }

  /** Applying the same value twice is the same as applying it once. */
  lemma IncrementalIdempotent(t: Tally, value: int)
    ensures IncrementalVote(IncrementalVote(t, value), value) == IncrementalVote(t, value)
  {
  }

  /** The user's vote and the post's tallies as the server stores them. */
  function Recount(votes: seq<Vote>, u: UserId, p: PostId): (t: Tally)
    ensures t.up >= 0 && t.down >= 0
  {
    Tally(LookupVote(votes, u, p), Upvotes(votes, p), Downvotes(votes, p))
  }

  /**
   * The main agreement: starting from the server's own numbers, the
   * client's ±1 deltas land exactly on the server's recount after the
   * server applies the same value.
   */
  lemma IncrementalMatchesRecount(votes: seq<Vote>, u: UserId, p: PostId, value: int, now: nat)
    requires WellFormed(votes) && IsSubmittedValue(value)
    ensures IncrementalVote(Recount(votes, u, p), value) == Recount(SetVote(votes, u, p, value, now), u, p)
  {
    var after := SetVote(votes, u, p, value, now);
    SetVoteLookup(votes, u, p, value, now, u, p);
    SetVoteCounts(votes, u, p, value, now, p, 1);
    SetVoteCounts(votes, u, p, value, now, p, -1);
    match FindVote(votes, u, p)
    case Some(i) => assert IsStoredValue(votes[i].value);
    case None =>
  }

  /** The value `VoteButtons` sends: clicking the selected direction again sends 0, otherwise the clicked value. */
  function ToggledValue(current: Option<int>, clicked: int): (v: int)
    requires clicked == 1 || clicked == -1
    ensures v == 0 <==> current == Some(clicked)
    ensures v != 0 ==> v == clicked
  {
    if current == Some(clicked) then 0 else clicked
  }

  /** One click on a vote button: choose the value to send, then apply the ±1 rule. */
  function Click(t: Tally, clicked: int): Tally
    requires clicked == 1 || clicked == -1
  {
    IncrementalVote(t, ToggledValue(t.vote, clicked))
  }

  /**
   * Clicking the same button twice restores the starting state unless the
   * user had voted the other way; then the two clicks switch to the
   * clicked direction and retract it, so the opposite vote is gone.
   */
  lemma ClickTwice(t: Tally, clicked: int)
    requires clicked == 1 || clicked == -1
    requires t.vote == None || t.vote == Some(1) || t.vote == Some(-1)
    ensures t.vote != Some(-clicked) ==> Click(Click(t, clicked), clicked) == t
    ensures t.vote == Some(-clicked) ==>
              Click(Click(t, clicked), clicked)
              == Tally(None, t.up - Indicator(clicked == -1), t.down - Indicator(clicked == 1))
  {
  }

  /**
   * The retract-on-second-click rule lives on the client alone: a click
   * shown on the server's numbers sends the toggled value, and the
   * server's plain transition for it yields what the client displays.
   */
  lemma ClickMatchesServer(votes: seq<Vote>, u: UserId, p: PostId, clicked: int, now: nat)
    requires WellFormed(votes) && (clicked == 1 || clicked == -1)
    ensures Click(Recount(votes, u, p), clicked)
         == Recount(SetVote(votes, u, p, ToggledValue(LookupVote(votes, u, p), clicked), now), u, p)
  {
    IncrementalMatchesRecount(votes, u, p, ToggledValue(LookupVote(votes, u, p), clicked), now);
  }

  /**
   * The up, up, down sequence of clicks on a post without votes: the
   * tally goes 0 to 1 upvote, back to 0 with the document deleted, then
   * to 1 downvote with the document holding -1. Sent straight to the
   * server, a second +1 would instead leave the upvote in place.
   */
  lemma UpUpDownScenario(votes: seq<Vote>, u: UserId, p: PostId, t1: nat, t2: nat, t3: nat)
    requires WellFormed(votes)
    requires Upvotes(votes, p) == 0 && Downvotes(votes, p) == 0 && LookupVote(votes, u, p) == None
    ensures var v1 := SetVote(votes, u, p, 1, t1);
      var v2 := SetVote(v1, u, p, ToggledValue(LookupVote(v1, u, p), 1), t2);
      var v3 := SetVote(v2, u, p, ToggledValue(LookupVote(v2, u, p), -1), t3);
      && Recount(v1, u, p) == Tally(Some(1), 1, 0)
      && Recount(v2, u, p) == Tally(None, 0, 0)
      && Recount(v3, u, p) == Tally(Some(-1), 0, 1)
      && Recount(SetVote(v1, u, p, 1, t2), u, p) == Tally(Some(1), 1, 0)
  {
    var v1 := SetVote(votes, u, p, 1, t1);
    IncrementalMatchesRecount(votes, u, p, 1, t1);
    SetVoteWellFormed(votes, u, p, 1, t1);
    ClickMatchesServer(v1, u, p, 1, t2);
    var v2 := SetVote(v1, u, p, ToggledValue(LookupVote(v1, u, p), 1), t2);
    SetVoteWellFormed(v1, u, p, 0, t2);
    ClickMatchesServer(v2, u, p, -1, t3);
    SetVoteIdempotent(votes, u, p, 1, t1, t2);
  }

  /** The score `VoteButtons` displays. */
  function Score(t: Tally): int {
    t.up - t.down
  }

  /** Shown on the server's numbers, the displayed score is the sum of the values stored on the post. */
  lemma ScoreIsNetScore(votes: seq<Vote>, u: UserId, p: PostId)
    requires WellFormed(votes)
    ensures Score(Recount(votes, u, p)) == NetScore(votes, p)
  {
    TallyDifferenceIsNetScore(votes, p);
  }
}
