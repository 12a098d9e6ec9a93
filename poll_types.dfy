/**
 * The poll records shared by the poll card, the demo page and the polls
 * list (the `Poll` and `PollOption` interfaces). Dates are not modelled.
 */
module PollTypes {
  import opened Wrappers

  /** The fewest and the most options a poll may have, on the form and in the API alike. */
  const MinOptions := 2
  const MaxOptions := 10

  /** Lifecycle status of a poll. */
  datatype Status = Draft | Active | Closed

  datatype PollOption = PollOption(id: string, text: string, votes: int)

  datatype Poll = Poll(
    id: string,
    title: string,
    description: Option<string>,
    options: seq<PollOption>,
    totalVotes: int,
    status: Status,
    isPublic: bool)

  /** Sum of the per-option vote counts. */
  function SumVotes(options: seq<PollOption>): int
  {
    if options == [] then 0 else options[0].votes + SumVotes(options[1..])
  }

  /** The poll's `totalVotes` agrees with its options' counts. */
  predicate TallyConsistent(p: Poll)
  {
    p.totalVotes == SumVotes(p.options)
  }

  /** No two options share an id. */
  predicate UniqueIds(options: seq<PollOption>)
  {
    forall i, j :: 0 <= i < j < |options| ==> options[i].id != options[j].id
  }

  /** Number of options whose id is `id`. */
  function Occurrences(options: seq<PollOption>, id: string): (n: nat)
    ensures n <= |options|
    ensures n == 0 <==> forall i :: 0 <= i < |options| ==> options[i].id != id
  {
    if options == [] then 0
    else (if options[0].id == id then 1 else 0) + Occurrences(options[1..], id)
  }

  /** With unique ids, an id that occurs at all occurs exactly once. */
  lemma {:induction false} UniqueOccursOnce(options: seq<PollOption>, k: nat)
    requires UniqueIds(options)
    requires k < |options|
    ensures Occurrences(options, options[k].id) == 1
  {
    var id := options[k].id;
    if k == 0 {
      assert forall i :: 0 <= i < |options[1..]| ==> options[1..][i].id != id by {
        forall i | 0 <= i < |options[1..]|
          ensures options[1..][i].id != id
        {
          assert options[1..][i] == options[i + 1];
        }
      }
    } else {
      assert options[1..][k - 1] == options[k];
      UniqueOccursOnce(options[1..], k - 1);
      assert options[0].id != id;
    }
  }
}
