/**
 * The poll card: per-option percentages, the winning highlight, the status
 * badge colour, when an option can be clicked, the footer, and the card's
 * own voting state (`selectedOption`, `isVoting`, `hasVoted`).
 * Percentages are exact rationals; their one-decimal display is not modelled.
 */
module PollCard {
  import opened Wrappers
  import opened PollTypes

  /** A product of two positive reals is positive. */
  lemma ProductPositive(x: real, y: real)
    requires x > 0.0 && y > 0.0
    ensures x * y > 0.0
  {
  }

  /** Multiplying by a positive real keeps strict order. */
  lemma MulMonotone(x: real, y: real, t: real)
    requires t > 0.0 && x < y
    ensures x * t < y * t
  {
    ProductPositive(y - x, t);
    assert (y - x) * t == y * t - x * t;
  }

  /** Multiplying by a positive real can be cancelled. */
  lemma CancelPositive(a: real, b: real, t: real)
    requires t > 0.0 && a * t == b * t
    ensures a == b
  {
    if a < b {
      MulMonotone(a, b, t);
    } else if a > b {
      MulMonotone(b, a, t);
    }
  }

  /** A share of a positive whole that is at most the whole lies between 0 and 1. */
  lemma QuotientBounds(v: real, t: real)
    requires t > 0.0 && 0.0 <= v <= t
    ensures 0.0 <= v / t <= 1.0
  {
    var q := v / t;
    assert q * t == v;
    if q < 0.0 {
      MulMonotone(q, 0.0, t);
    } else if q > 1.0 {
      MulMonotone(1.0, q, t);
    }
  }

  /** `getOptionPercentage(votes)`: the option's share of `totalVotes` in percent, 0 for an empty poll. */
  function OptionPercentage(votes: int, totalVotes: int): (r: real)
    ensures totalVotes <= 0 ==> r == 0.0
    ensures totalVotes > 0 ==> r * (totalVotes as real) == (votes as real) * 100.0
    ensures 0 <= votes <= totalVotes ==> 0.0 <= r <= 100.0
    ensures 0 < votes == totalVotes ==> r == 100.0
  {
    if totalVotes > 0 then
      var v := votes as real;
      var t := totalVotes as real;
      var q := v / t;
      assert q * t == v;
      assert (q * 100.0) * t == (q * t) * 100.0;
      assert 0 <= votes <= totalVotes ==> 0.0 <= q <= 1.0 by {
        if 0 <= votes <= totalVotes {
          QuotientBounds(v, t);
        }
      }
      assert 0 < votes == totalVotes ==> q == 1.0 by {
        if 0 < votes == totalVotes {
          assert q * t == 1.0 * t;
          CancelPositive(q, 1.0, t);
        }
      }
      q * 100.0
    else 0.0
  }

  /** Sum of the percentages of the options, against the poll's total. */
  function PercentageSum(options: seq<PollOption>, totalVotes: int): real
  {
    if options == [] then 0.0
    else OptionPercentage(options[0].votes, totalVotes) + PercentageSum(options[1..], totalVotes)
  }

  lemma {:induction false} PercentageSumScaled(options: seq<PollOption>, totalVotes: int)
    requires totalVotes > 0
    ensures PercentageSum(options, totalVotes) * (totalVotes as real) == (SumVotes(options) as real) * 100.0
  {
    if options != [] {
      PercentageSumScaled(options[1..], totalVotes);
      var t := totalVotes as real;
      var a := OptionPercentage(options[0].votes, totalVotes);
      var b := PercentageSum(options[1..], totalVotes);
      assert (a + b) * t == a * t + b * t;
    }
  }

  /** On a poll whose total matches its options, the percentages add up to exactly 100. */
  lemma PercentagesSumTo100(p: Poll)
    requires TallyConsistent(p) && p.totalVotes > 0
    ensures PercentageSum(p.options, p.totalVotes) == 100.0
  {
    PercentageSumScaled(p.options, p.totalVotes);
    var t := p.totalVotes as real;
    var s := PercentageSum(p.options, p.totalVotes);
    var total := SumVotes(p.options) as real;
    assert s * t == total * 100.0;
    assert total == t;
    assert s * t == 100.0 * t;
    CancelPositive(s, 100.0, t);
  }

  /** `Math.max(...poll.options.map(opt => opt.votes))` for a card with at least one option. */
  function MaxVotes(options: seq<PollOption>): (m: int)
    requires |options| > 0
    ensures exists i :: 0 <= i < |options| && options[i].votes == m
    ensures forall i :: 0 <= i < |options| ==> options[i].votes <= m
  {
    if |options| == 1 then options[0].votes
    else
      var rest := MaxVotes(options[1..]);
      assert forall i :: 1 <= i < |options| ==> options[i] == options[1..][i - 1];
      if options[0].votes >= rest then options[0].votes else rest
  }

  /** `option.votes === maxVotes && maxVotes > 0`. */
  predicate IsWinning(option: PollOption, maxVotes: int)
  {
    option.votes == maxVotes && maxVotes > 0
  }

  /** An option is highlighted iff no option has more votes and it has at least one. */
  lemma WinningIff(options: seq<PollOption>, k: nat)
    requires k < |options|
    ensures IsWinning(options[k], MaxVotes(options))
            <==> (forall j :: 0 <= j < |options| ==> options[j].votes <= options[k].votes)
                 && options[k].votes > 0
  {
  }

  /** A poll in which nobody has voted highlights no option. */
  lemma NoWinnerWithoutVotes(options: seq<PollOption>)
    requires |options| > 0
    requires forall j :: 0 <= j < |options| ==> options[j].votes == 0
    ensures forall k :: 0 <= k < |options| ==> !IsWinning(options[k], MaxVotes(options))
  {
  }

  /** Tied leaders are all highlighted. */
  lemma TiesAllWin(options: seq<PollOption>, i: nat, j: nat)
    requires i < |options| && j < |options|
    requires IsWinning(options[i], MaxVotes(options))
    requires options[j].votes == options[i].votes
    ensures IsWinning(options[j], MaxVotes(options))
  {
  }

  /** `getStatusColor(status)`: the badge classes per status. */
  function StatusColor(status: Status): (classes: string)
  {
    match status
    case Active => "bg-green-500/10 text-green-600 border-green-500/20"
    case Closed => "bg-red-500/10 text-red-600 border-red-500/20"
    case Draft => "bg-amber-500/10 text-amber-600 border-amber-500/20"
  }

  /** Each status has its own badge colour. */
  lemma StatusColorsDistinct(s1: Status, s2: Status)
    requires s1 != s2
    ensures StatusColor(s1) != StatusColor(s2)
  {
  }

  /** The click condition on an option: `showVoteButton && poll.status === 'active' && !hasVoted`. */
  predicate CanClick(showVoteButton: bool, status: Status, hasVoted: bool)
  {
    showVoteButton && status == Active && !hasVoted
  }

  /** What the right-hand side of the card's footer shows. */
  datatype Footer = DetailsLink | VoteRecorded | StatusBadge(text: string) | Blank

  function FooterFor(showVoteButton: bool, hasVoted: bool, status: Status): (f: Footer)
    ensures !showVoteButton <==> f == DetailsLink
    ensures f == VoteRecorded <==> showVoteButton && hasVoted
    ensures f == StatusBadge("Voting closed") <==> showVoteButton && !hasVoted && status == Closed
    ensures f == StatusBadge("Not active") <==> showVoteButton && !hasVoted && status == Draft
  {
    if !showVoteButton then DetailsLink
    else if hasVoted then VoteRecorded
    else if status != Active then StatusBadge(if status == Closed then "Voting closed" else "Not active")
    else Blank
  }

  /** On a voting card the footer is blank exactly when the options can be clicked. */
  lemma FooterBlankIffClickable(hasVoted: bool, status: Status)
    ensures FooterFor(true, hasVoted, status) == Blank <==> CanClick(true, status, hasVoted)
  {
  }

  /**
   * The card's voting state. A vote is two atomic steps: `BeginVote` up to the
   * simulated delay, `FinishVote` after it. `onVoteCalls` records the calls
   * made to the `onVote` callback, which the card has when `hasOnVote`.
   */
  class CardState {
    var selectedOption: Option<string>
    var isVoting: bool
    var hasVoted: bool
    var onVoteCalls: seq<string>
    const hasOnVote: bool

    ghost predicate Valid()
      reads this
    {
      && !(hasVoted && isVoting)
      && ((isVoting || hasVoted) <==> selectedOption.Some?)
      && onVoteCalls == (if hasVoted && hasOnVote then [selectedOption.value] else [])
    }

    constructor (hasOnVote: bool)
      ensures Valid() && this.hasOnVote == hasOnVote
      ensures selectedOption == None && !isVoting && !hasVoted && onVoteCalls == []
    {
      this.hasOnVote := hasOnVote;
      selectedOption := None;
      isVoting := false;
      hasVoted := false;
      onVoteCalls := [];
    }

    /** `handleVote(optionId)` up to the delay: ignored while voting or after a vote. */
    method BeginVote(optionId: string) returns (started: bool)
      requires Valid()
      modifies this
      ensures Valid()
      ensures started <==> !old(hasVoted) && !old(isVoting)
      ensures started ==> isVoting && !hasVoted && selectedOption == Some(optionId)
      ensures !started ==> selectedOption == old(selectedOption) && isVoting == old(isVoting)
                           && hasVoted == old(hasVoted)
      ensures onVoteCalls == old(onVoteCalls)
    {
      if hasVoted || isVoting {
        return false;
      }
      isVoting := true;
      selectedOption := Some(optionId);
      started := true;
    }

    /** The rest of `handleVote` after the delay: report the vote once and latch. */
    method FinishVote()
      requires Valid() && isVoting
      modifies this
      ensures Valid()
      ensures hasVoted && !isVoting && selectedOption == old(selectedOption)
      ensures onVoteCalls == old(onVoteCalls) + (if hasOnVote then [selectedOption.value] else [])
      ensures |onVoteCalls| <= 1
    {
      if hasOnVote {
        onVoteCalls := onVoteCalls + [selectedOption.value];
      }
      hasVoted := true;
      isVoting := false;
    }

    /** A click on an option: starts a vote only when the option is clickable and no vote is running. */
    method ClickOption(showVoteButton: bool, status: Status, optionId: string) returns (started: bool)
      requires Valid()
      modifies this
      ensures Valid()
      ensures started <==> CanClick(showVoteButton, status, old(hasVoted)) && !old(isVoting)
      ensures started ==> isVoting && selectedOption == Some(optionId)
      ensures !started ==> selectedOption == old(selectedOption) && isVoting == old(isVoting)
                           && hasVoted == old(hasVoted)
      ensures onVoteCalls == old(onVoteCalls)
    {
      started := false;
      if CanClick(showVoteButton, status, hasVoted) {
        started := BeginVote(optionId);
      }
    }
  }
}
