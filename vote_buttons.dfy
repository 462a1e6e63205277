/**
 * The `VoteButtons` component (src/components/VoteButtons.jsx): its props,
 * its four state cells, the click handler with its guards and optimistic
 * update, the revert when the request fails, and the displayed score.
 */
module VoteButtons {
  import opened Wrappers
  import opened Tally

  /** What a click leads to. */
  datatype Outcome =
    | NeedLogin        // no user: a notice and a redirect to the login page
    | Busy             // a vote is already in flight
    | MissingPostId    // the post id prop is falsy
    | Sent(value: int) // the optimistic update was applied and `value` was sent

  /** `n || 0` for a numeric prop that may be missing. */
  function OrZero(n: Option<int>): (r: int)
    ensures n.Some? ==> r == n.value
    ensures n.None? ==> r == 0
  {
    if n.Some? then n.value else 0
  }

  /** The post id prop is truthy: present and not 0. */
  predicate HasPostId(postId: Option<nat>) {
    postId.Some? && postId.value != 0
  }

  class Buttons {
    const postId: Option<nat>
    const upvotes: Option<int>
    const downvotes: Option<int>
    const userVote: Option<int>

    var optimisticVote: Option<int>
    var optimisticUpvotes: int
    var optimisticDownvotes: int
    var isVoting: bool

    /** The tally the component shows. */
    function Shown(): Tally
      reads this
    {
      Tally(optimisticVote, optimisticUpvotes, optimisticDownvotes)
    }

    /** The tally the props describe, missing counts read as 0. */
    function FromProps(): (t: Tally)
      ensures t.vote == userVote && t.up == OrZero(upvotes) && t.down == OrZero(downvotes)
    {
      Tally(userVote, OrZero(upvotes), OrZero(downvotes))
    }

    /** The first render: the state cells start from the props, nothing in flight. */
    constructor (postId: Option<nat>, upvotes: Option<int>, downvotes: Option<int>, userVote: Option<int>)
      ensures this.postId == postId && this.upvotes == upvotes && this.downvotes == downvotes && this.userVote == userVote
      ensures Shown() == FromProps() && !isVoting
    {
      this.postId, this.upvotes, this.downvotes, this.userVote := postId, upvotes, downvotes, userVote;
      optimisticVote := userVote;
      optimisticUpvotes := OrZero(upvotes);
      optimisticDownvotes := OrZero(downvotes);
      isVoting := false;
    }

    /**
     * `handleVote(clicked)`: without a user, while a vote is in flight, or
     * without a post id nothing changes and nothing is sent. Otherwise the
     * toggled value is sent, the shown tally takes the ±1 step for it and
     * the vote is marked in flight.
     */
    method HandleVote(clicked: int, loggedIn: bool) returns (outcome: Outcome)
      requires clicked == 1 || clicked == -1
      modifies this
      ensures !loggedIn ==> outcome == NeedLogin && unchanged(this)
      ensures loggedIn && old(isVoting) ==> outcome == Busy && unchanged(this)
      ensures loggedIn && !old(isVoting) && !HasPostId(postId) ==> outcome == MissingPostId && unchanged(this)
      ensures loggedIn && !old(isVoting) && HasPostId(postId) ==>
        && outcome == Sent(ToggledValue(old(optimisticVote), clicked))
        && Shown() == Click(old(Shown()), clicked)
        && isVoting
    {
      if !loggedIn {
        return NeedLogin;
      }
      if isVoting {
        return Busy;
      }
      if !HasPostId(postId) {
        return MissingPostId;
      }
      isVoting := true;
      var newValue := if optimisticVote == Some(clicked) then 0 else clicked;
      if optimisticVote == Some(1) && newValue != 1 {
        optimisticUpvotes := optimisticUpvotes - 1;
      } else if optimisticVote == Some(-1) && newValue != -1 {
        optimisticDownvotes := optimisticDownvotes - 1;
      }
      if newValue == 1 && optimisticVote != Some(1) {
        optimisticUpvotes := optimisticUpvotes + 1;
      } else if newValue == -1 && optimisticVote != Some(-1) {
        optimisticDownvotes := optimisticDownvotes + 1;
      }
      optimisticVote := if newValue == 0 then None else Some(newValue);
      outcome := Sent(newValue);
    }

    /**
     * The end of the request: a failure puts the shown tally back to the
     * props (not to the tally before the click); either way the vote is
     * no longer in flight.
     */
    method Settle(succeeded: bool)
      requires isVoting
      modifies this
      ensures !isVoting
      ensures succeeded ==> Shown() == old(Shown())
      ensures !succeeded ==> Shown() == FromProps()
    {
      if !succeeded {
        optimisticVote := userVote;
        optimisticUpvotes := OrZero(upvotes);
        optimisticDownvotes := OrZero(downvotes);
      }
      isVoting := false;
    }

    /** The number between the two buttons. */
    function DisplayedScore(): (s: int)
      reads this
      ensures s == optimisticUpvotes - optimisticDownvotes
    {
      Score(Shown())
    }
  }

  /**
   * Every click keeps the counters minus the shown vote's share, and sets
   * the shown vote to null exactly when it retracts the selected direction.
   */
  lemma ClickKeepsOthersShare(t: Tally, clicked: int)
    requires clicked == 1 || clicked == -1
    ensures var r := Click(t, clicked);
      && r.up - Indicator(r.vote == Some(1)) == t.up - Indicator(t.vote == Some(1))
      && r.down - Indicator(r.vote == Some(-1)) == t.down - Indicator(t.vote == Some(-1))
      && (r.vote == None <==> t.vote == Some(clicked))
      && (r.vote != None ==> r.vote == Some(clicked))
  {
  }
}
