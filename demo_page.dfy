/**
 * The interactive demo page: a local poll tally and a `hasVoted` latch.
 * `handleVote` counts one vote for the chosen option and for the total,
 * once per reset; `resetDemo` restores the initial data.
 */
module DemoPage {
  import opened Wrappers
  import opened PollTypes

  const DemoTitle := "What's your favorite development framework?"
  const DemoDescription := "Help us understand the current preferences in the developer community. This is an interactive demo - try voting!"

  /** The demo's fixed starting data. */
  function InitialPoll(): Poll
  {
    Poll(
      "demo",
      DemoTitle,
      Some(DemoDescription),
      [ PollOption("react", "React", 145),
        PollOption("vue", "Vue.js", 89),
        PollOption("angular", "Angular", 67),
        PollOption("svelte", "Svelte", 34),
        PollOption("solid", "SolidJS", 23) ],
      358,
      Active,
      true)
  }

  /** The initial data is consistent (145+89+67+34+23 = 358) and its ids are distinct. */
  lemma InitialPollConsistent()
    ensures TallyConsistent(InitialPoll())
    ensures UniqueIds(InitialPoll().options)
  {
    var o := InitialPoll().options;
    assert SumVotes(o[4..]) == 23;
    assert o[3..][1..] == o[4..];
    assert SumVotes(o[3..]) == 57;
    assert o[2..][1..] == o[3..];
    assert SumVotes(o[2..]) == 124;
    assert o[1..][1..] == o[2..];
    assert SumVotes(o[1..]) == 213;
  }

  /** `prevPoll.options.map(...)`: one more vote for each option with the chosen id. */
  function CountVote(options: seq<PollOption>, optionId: string): (r: seq<PollOption>)
    ensures |r| == |options|
    ensures forall i :: 0 <= i < |r| ==>
              && r[i].id == options[i].id
              && r[i].text == options[i].text
              && r[i].votes == options[i].votes + (if options[i].id == optionId then 1 else 0)
  {
    if options == [] then []
    else
      var o := options[0];
      [if o.id == optionId then o.(votes := o.votes + 1) else o] + CountVote(options[1..], optionId)
  }

  /** The vote changes the sum of the option counts by the number of options carrying the id. */
  lemma {:induction false} CountVoteSum(options: seq<PollOption>, optionId: string)
    ensures SumVotes(CountVote(options, optionId)) == SumVotes(options) + Occurrences(options, optionId)
  {
    if options != [] {
      CountVoteSum(options[1..], optionId);
      assert CountVote(options, optionId)[1..] == CountVote(options[1..], optionId);
    }
  }

  /** The state update of `handleVote` when it goes through. */
  function ApplyVote(p: Poll, optionId: string): (r: Poll)
    ensures r.totalVotes == p.totalVotes + 1
    ensures r.options == CountVote(p.options, optionId)
    ensures r.(options := p.options, totalVotes := p.totalVotes) == p
  {
    p.(options := CountVote(p.options, optionId), totalVotes := p.totalVotes + 1)
  }

  /** A vote for an existing option keeps a consistent tally consistent. */
  lemma VoteKeepsTallyConsistent(p: Poll, k: nat)
    requires TallyConsistent(p) && UniqueIds(p.options) && k < |p.options|
    ensures TallyConsistent(ApplyVote(p, p.options[k].id))
    ensures UniqueIds(ApplyVote(p, p.options[k].id).options)
  {
    CountVoteSum(p.options, p.options[k].id);
    UniqueOccursOnce(p.options, k);
  }

  /** A vote for an id that no option has still counts in the total, breaking consistency. */
  lemma VoteForMissingIdBreaksTally(p: Poll, optionId: string)
    requires TallyConsistent(p)
    requires forall i :: 0 <= i < |p.options| ==> p.options[i].id != optionId
    ensures !TallyConsistent(ApplyVote(p, optionId))
  {
    CountVoteSum(p.options, optionId);
  }

  /** The poll shown after the vote made since the last reset, if any. */
  function PollAfter(votedFor: Option<string>): Poll
  {
    if votedFor.Some? then ApplyVote(InitialPoll(), votedFor.value) else InitialPoll()
  }

  /**
   * Between resets at most one vote is counted: the total is the initial
   * total plus one if a vote was made, and the tally stays consistent
   * when the vote was for one of the demo's options.
   */
  lemma AtMostOneVoteBetweenResets(votedFor: Option<string>)
    ensures PollAfter(votedFor).totalVotes == 358 + (if votedFor.Some? then 1 else 0)
    ensures (votedFor.None? || exists k :: 0 <= k < |InitialPoll().options| && InitialPoll().options[k].id == votedFor.value)
            ==> TallyConsistent(PollAfter(votedFor))
  {
    InitialPollConsistent();
    if votedFor.Some? && exists k :: 0 <= k < |InitialPoll().options| && InitialPoll().options[k].id == votedFor.value {
      var k :| 0 <= k < |InitialPoll().options| && InitialPoll().options[k].id == votedFor.value;
      VoteKeepsTallyConsistent(InitialPoll(), k);
    }
  }

  /** The page's state cells `poll` and `hasVoted`. */
  class Demo {
    var poll: Poll
    var hasVoted: bool
    /** The option voted for since the last reset, if any. */
    ghost var votedFor: Option<string>

    ghost predicate Valid()
      reads this
    {
      (hasVoted <==> votedFor.Some?) && poll == PollAfter(votedFor)
    }

    constructor ()
      ensures Valid()
      ensures poll == InitialPoll() && !hasVoted
    {
      poll := InitialPoll();
      hasVoted := false;
      votedFor := None;
    }

    /** `handleVote(optionId)`: a no-op once voted; otherwise counts the vote and latches. */
    method HandleVote(optionId: string)
      requires Valid()
      modifies this
      ensures Valid()
      ensures hasVoted
      ensures old(hasVoted) ==> poll == old(poll) && votedFor == old(votedFor)
      ensures !old(hasVoted) ==> poll == ApplyVote(old(poll), optionId) && votedFor == Some(optionId)
    {
      if hasVoted {
        return;
      }
      poll := ApplyVote(poll, optionId);
      hasVoted := true;
      votedFor := Some(optionId);
    }

    /**
     * `resetDemo()`: back to the initial data, with the page's own latch
     * cleared. The card keeps its own voted flag across a reset, so this
     * does not by itself let the page receive another click.
     */
    method ResetDemo()
      requires Valid()
      modifies this
      ensures Valid()
      ensures poll == InitialPoll() && !hasVoted
    {
      poll := InitialPoll();
      hasVoted := false;
      votedFor := None;
    }
  }
}
