/**
 * The community polls page: the status filter tabs, the aggregate counters,
 * and which of the loading, error, empty and grid sections are shown.
 * Loading the polls from the database is not modelled; the loaded list,
 * the loading flag and the error message are the page's state.
 */
module PollsPage {
  import opened Wrappers
  import opened PollTypes

  /** The filter tab: `'all' | 'active' | 'closed'`. */
  datatype Filter = All | OnlyActive | OnlyClosed

  /** The filter callback: `filter === 'all'` or the poll's status equals the filter. */
  predicate Keeps(filter: Filter, p: Poll)
  {
    match filter
    case All => true
    case OnlyActive => p.status == Active
    case OnlyClosed => p.status == Closed
  }

  /** `polls.filter(...)`. */
  function FilterPolls(polls: seq<Poll>, filter: Filter): (r: seq<Poll>)
    ensures |r| <= |polls|
    ensures forall p :: p in r <==> p in polls && Keeps(filter, p)
  {
    if polls == [] then []
    else (if Keeps(filter, polls[0]) then [polls[0]] else []) + FilterPolls(polls[1..], filter)
  }

  /** A poll occurs in the filtered list as often as in the loaded list when the tab keeps it, else never. */
  lemma {:induction false} FilterMultiplicity(polls: seq<Poll>, filter: Filter)
    ensures forall p :: multiset(FilterPolls(polls, filter))[p]
                        == if Keeps(filter, p) then multiset(polls)[p] else 0
  {
    if polls != [] {
      FilterMultiplicity(polls[1..], filter);
      assert polls == [polls[0]] + polls[1..];
      assert FilterPolls(polls, filter)
             == (if Keeps(filter, polls[0]) then [polls[0]] else []) + FilterPolls(polls[1..], filter);
    }
  }

  /** `a` is `b` with some elements left out, the rest in their original order. */
  predicate IsSubsequence(a: seq<Poll>, b: seq<Poll>)
  {
    if b == [] then a == []
    else (a != [] && a[0] == b[0] && IsSubsequence(a[1..], b[1..])) || IsSubsequence(a, b[1..])
  }

  /** The filtered list keeps the order of the loaded polls. */
  lemma {:induction false} FilterIsSubsequence(polls: seq<Poll>, filter: Filter)
    ensures IsSubsequence(FilterPolls(polls, filter), polls)
  {
    if polls != [] {
      FilterIsSubsequence(polls[1..], filter);
      var rest := FilterPolls(polls[1..], filter);
      if Keeps(filter, polls[0]) {
        assert FilterPolls(polls, filter) == [polls[0]] + rest;
        assert ([polls[0]] + rest)[1..] == rest;
      } else {
        assert FilterPolls(polls, filter) == rest;
      }
    }
  }

  /** The 'all' tab shows every loaded poll, in order. */
  lemma {:induction false} FilterAllIsIdentity(polls: seq<Poll>)
    ensures FilterPolls(polls, All) == polls
  {
    if polls != [] {
      FilterAllIsIdentity(polls[1..]);
    }
  }

  /** How many polls of `polls` have status `s`, counted one poll at a time. */
  function CountStatus(polls: seq<Poll>, s: Status): nat
  {
    if polls == [] then 0 else (if polls[0].status == s then 1 else 0) + CountStatus(polls[1..], s)
  }

  /** The filter for a tab other than 'all' keeps as many polls as have that status. */
  lemma {:induction false} FilterLengthCounts(polls: seq<Poll>, filter: Filter, s: Status)
    requires (filter == OnlyActive && s == Active) || (filter == OnlyClosed && s == Closed)
    ensures |FilterPolls(polls, filter)| == CountStatus(polls, s)
  {
    if polls != [] {
      FilterLengthCounts(polls[1..], filter, s);
    }
  }

  /** `activePolls`: how many loaded polls are active. */
  function ActivePolls(polls: seq<Poll>): (n: nat)
    ensures n == CountStatus(polls, Active)
    ensures n <= |polls|
    ensures n == 0 <==> forall i :: 0 <= i < |polls| ==> polls[i].status != Active
  {
    var r := FilterPolls(polls, OnlyActive);
    FilterLengthCounts(polls, OnlyActive, Active);
    assert forall i :: 0 <= i < |polls| && polls[i].status == Active ==> polls[i] in r;
    assert r != [] ==> r[0] in r;
    |r|
  }

  /** Every loaded poll is active exactly when the counter equals the number of polls. */
  lemma {:induction false} ActivePollsAll(polls: seq<Poll>)
    ensures ActivePolls(polls) == |polls| <==> forall i :: 0 <= i < |polls| ==> polls[i].status == Active
  {
    if polls != [] {
      ActivePollsAll(polls[1..]);
      assert forall i :: 1 <= i < |polls| ==> polls[i] == polls[1..][i - 1];
      assert FilterPolls(polls, OnlyActive) ==
        (if polls[0].status == Active then [polls[0]] else []) + FilterPolls(polls[1..], OnlyActive);
    }
  }

  /** `polls.reduce((sum, poll) => sum + poll.totalVotes, acc)`. */
  function SumTotalsFrom(acc: int, polls: seq<Poll>): int
    decreases |polls|
  {
    if polls == [] then acc else SumTotalsFrom(acc + polls[0].totalVotes, polls[1..])
  }

  /** `totalVotes`: the sum of every loaded poll's total, whatever the filter. */
  function TotalVotes(polls: seq<Poll>): int
  {
    SumTotalsFrom(0, polls)
  }

  lemma {:induction false} SumTotalsFromShift(acc: int, polls: seq<Poll>)
    ensures SumTotalsFrom(acc, polls) == acc + TotalVotes(polls)
    decreases |polls|
  {
    if polls != [] {
      SumTotalsFromShift(acc + polls[0].totalVotes, polls[1..]);
      SumTotalsFromShift(polls[0].totalVotes, polls[1..]);
    }
  }

  /** The counter adds up across any split of the loaded list. */
  lemma {:induction false} TotalVotesAppend(a: seq<Poll>, b: seq<Poll>)
    ensures TotalVotes(a + b) == TotalVotes(a) + TotalVotes(b)
  {
    if a == [] {
      assert a + b == b;
    } else {
      assert (a + b)[1..] == a[1..] + b;
      SumTotalsFromShift(a[0].totalVotes, a[1..] + b);
      SumTotalsFromShift(a[0].totalVotes, a[1..]);
      TotalVotesAppend(a[1..], b);
    }
  }

  /** The sections of the page that are rendered. */
  datatype Sections = Sections(loading: bool, error: bool, empty: bool, grid: bool)

  function ShownSections(loading: bool, error: Option<string>, filtered: seq<Poll>): (s: Sections)
    ensures s.loading == loading && s.error == TruthyString(error)
    ensures !(s.empty && s.grid)
    ensures s.grid <==> !loading && !TruthyString(error) && |filtered| > 0
    ensures s.empty <==> !loading && !TruthyString(error) && |filtered| == 0
  {
    var settled := !loading && !TruthyString(error);
    Sections(loading, TruthyString(error), settled && |filtered| == 0, settled && |filtered| > 0)
  }

  /** The tab's value, `'all' | 'active' | 'closed'`. */
  function FilterName(filter: Filter): string
  {
    match filter
    case All => "all"
    case OnlyActive => "active"
    case OnlyClosed => "closed"
  }

  /** The empty state's message: a fixed text on the 'all' tab, else `No ${filter} polls found.` */
  function EmptyMessage(filter: Filter): string
  {
    if filter == All then "No polls have been created yet."
    else "No " + FilterName(filter) + " polls found."
  }

  /** Each tab's empty state has its own message, so it tells which tab is empty. */
  lemma EmptyMessagesDistinct(f1: Filter, f2: Filter)
    requires f1 != f2
    ensures EmptyMessage(f1) != EmptyMessage(f2)
  {
    if f1 != All && f2 != All {
      assert EmptyMessage(f1)[3] != EmptyMessage(f2)[3];
    }
  }

  /** The page's state cells. */
  class PollsPageState {
    var polls: seq<Poll>
    var loading: bool
    var error: Option<string>
    var filter: Filter

    /** On mount: nothing loaded yet, loading, no error, and the 'active' tab selected. */
    constructor ()
      ensures polls == [] && loading && error == None && filter == OnlyActive
    {
      polls := [];
      loading := true;
      error := None;
      filter := OnlyActive;
    }

    /** A filter tab was clicked. */
    method SetFilter(f: Filter)
      modifies this
      ensures filter == f && polls == old(polls) && loading == old(loading) && error == old(error)
    {
      filter := f;
    }

    /** What the page renders in its current state. */
    function Rendered(): (s: Sections)
      reads this
      ensures s.loading == loading && s.error == TruthyString(error)
      ensures s.grid <==> !loading && !TruthyString(error)
                          && exists i :: 0 <= i < |polls| && Keeps(filter, polls[i])
      ensures s.empty <==> !loading && !TruthyString(error)
                           && forall i :: 0 <= i < |polls| ==> !Keeps(filter, polls[i])
    {
      var shown := FilterPolls(polls, filter);
      assert shown != [] ==> shown[0] in shown;
      assert forall i :: 0 <= i < |polls| && Keeps(filter, polls[i]) ==> polls[i] in shown;
      ShownSections(loading, error, shown)
    }
  }

  /** While the first load runs only the loading section is shown. */
  lemma InitialRenderIsLoading()
    ensures ShownSections(true, None, FilterPolls([], OnlyActive)) == Sections(true, false, false, false)
  {
  }
}
