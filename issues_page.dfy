/** The issue list page: a text search over title and description, the
    three exact-match filters of the filter bar, then one of four orders. */
module IssuesPage {
  import opened Types
  import opened Seqs
  import opened Sorting
  import opened JsString
  import opened IssueFilter

  datatype SortOrder = Newest | Oldest | MostVoted | LeastVoted

  /** The comparator of each order, as "may stay in front of". */
  function Precedes(order: SortOrder): (Issue, Issue) -> bool {
    match order
    case Newest => (a: Issue, b: Issue) => a.createdAt >= b.createdAt
    case Oldest => (a: Issue, b: Issue) => a.createdAt <= b.createdAt
    case MostVoted => (a: Issue, b: Issue) => a.votes >= b.votes
    case LeastVoted => (a: Issue, b: Issue) => a.votes <= b.votes
  }

  lemma PrecedesIsTotalPreorder(order: SortOrder)
    ensures TotalPreorder(Precedes(order))
  {
  }

  /** The lower-cased query occurs in the lower-cased title or description. */
  predicate MatchesQuery(issue: Issue, query: string) {
    Includes(ToLower(issue.title), ToLower(query)) || Includes(ToLower(issue.description), ToLower(query))
  }

  /** The value a filter applies: only a value that is present and not the
      empty string (a falsy value applies nothing). */
  function ActiveFilter(filters: Filters, key: FilterKey): (r: Option<string>)
    ensures r.Some? <==> key in filters && filters[key].Some? && filters[key].value != ""
    ensures r.Some? ==> r == filters[key]
  {
    if key in filters && filters[key].Some? && filters[key].value != "" then filters[key] else None
  }

  /** An issue passes a filter when the filter is inactive or names exactly
      the issue's value. */
  predicate PassesFilter(filters: Filters, key: FilterKey, value: string) {
    ActiveFilter(filters, key).None? || ActiveFilter(filters, key).value == value
  }

  predicate Selected(issue: Issue, query: string, filters: Filters) {
    && MatchesQuery(issue, query)
    && PassesFilter(filters, StatusKey, StatusName(issue.status))
    && PassesFilter(filters, PriorityKey, PriorityName(issue.priority))
    && PassesFilter(filters, CategoryKey, CategoryName(issue.category))
  }

  /** Keeps the issues whose field equals the filter's value, when that filter
      is active. */
  function ApplyFilter(s: seq<Issue>, filters: Filters, key: FilterKey, field: Issue -> string): seq<Issue> {
    match ActiveFilter(filters, key)
    case None => s
    case Some(v) => Filter(s, (i: Issue) => field(i) == v)
  }

  function StatusOf(i: Issue): string { StatusName(i.status) }
  function PriorityOf(i: Issue): string { PriorityName(i.priority) }
  function CategoryOf(i: Issue): string { CategoryName(i.category) }

  /** The issues selected by the query and the filters, as one test. */
  function SelectedBy(query: string, filters: Filters): Issue -> bool {
    (i: Issue) => Selected(i, query, filters)
  }

  /** The test one filter applies, as a function on issues. */
  function Passes(filters: Filters, key: FilterKey, field: Issue -> string): Issue -> bool {
    (i: Issue) => PassesFilter(filters, key, field(i))
  }

  /** The search, then the three filters in turn. */
  function Selection(issues: seq<Issue>, query: string, filters: Filters): seq<Issue> {
    var searched := Filter(issues, (i: Issue) => MatchesQuery(i, query));
    var byStatus := ApplyFilter(searched, filters, StatusKey, StatusOf);
    var byPriority := ApplyFilter(byStatus, filters, PriorityKey, PriorityOf);
    ApplyFilter(byPriority, filters, CategoryKey, CategoryOf)
  }

  /** `filteredIssues`: the selection, then the sort. */
  function FilteredIssues(issues: seq<Issue>, query: string, filters: Filters, order: SortOrder): seq<Issue> {
    Sort(Selection(issues, query, filters), Precedes(order))
  }

  /** Applying a filter keeps the issues that pass it, inactive or not. */
  lemma ApplyFilterIsFilter(s: seq<Issue>, filters: Filters, key: FilterKey, field: Issue -> string)
    ensures ApplyFilter(s, filters, key, field) == Filter(s, Passes(filters, key, field))
  {
    match ActiveFilter(filters, key)
    case None =>
      FilterKeepsAll(s, Passes(filters, key, field));
    case Some(v) =>
      FilterSamePredicate(s, (i: Issue) => field(i) == v, Passes(filters, key, field));
  }

  /** A filter stage after a first selection is one selection with both tests. */
  lemma ApplyFilterAfter(issues: seq<Issue>, p: Issue -> bool, filters: Filters, key: FilterKey,
                         field: Issue -> string, both: Issue -> bool)
    requires forall x :: both(x) == (p(x) && PassesFilter(filters, key, field(x)))
    ensures ApplyFilter(Filter(issues, p), filters, key, field) == Filter(issues, both)
  {
    ApplyFilterIsFilter(Filter(issues, p), filters, key, field);
    FilterThenFilter(issues, p, Passes(filters, key, field), both);
  }

  /** The four stages in a row select exactly the issues that pass all four
      tests, in store order. */
  lemma SelectionIsOneFilter(issues: seq<Issue>, query: string, filters: Filters)
    ensures Selection(issues, query, filters) == Filter(issues, SelectedBy(query, filters))
  {
    var q := (i: Issue) => MatchesQuery(i, query);
    var qs := (i: Issue) => q(i) && PassesFilter(filters, StatusKey, StatusOf(i));
    var qsp := (i: Issue) => qs(i) && PassesFilter(filters, PriorityKey, PriorityOf(i));
    ApplyFilterAfter(issues, q, filters, StatusKey, StatusOf, qs);
    ApplyFilterAfter(issues, qs, filters, PriorityKey, PriorityOf, qsp);
    ApplyFilterAfter(issues, qsp, filters, CategoryKey, CategoryOf, SelectedBy(query, filters));
  }

  /** Each issue is listed as often as it is in the store when it is selected
      by the query and the filters, and not at all otherwise: the list is a
      permutation of the selected issues. */
  lemma FilteredIssuesAreTheSelected(issues: seq<Issue>, query: string, filters: Filters, order: SortOrder)
    ensures forall x :: multiset(FilteredIssues(issues, query, filters, order))[x]
                     == if Selected(x, query, filters) then multiset(issues)[x] else 0
    ensures forall x :: x in FilteredIssues(issues, query, filters, order) <==> x in issues && Selected(x, query, filters)
  {
    SelectionIsOneFilter(issues, query, filters);
    FilterCounts(issues, SelectedBy(query, filters));
    var r := FilteredIssues(issues, query, filters, order);
    assert multiset(r) == multiset(Filter(issues, SelectedBy(query, filters)));
    forall x ensures x in r <==> x in issues && Selected(x, query, filters) {
      assert x in r <==> multiset(r)[x] > 0;
      assert x in issues <==> multiset(issues)[x] > 0;
    }
  }

  /** The list is in the chosen order. */
  lemma FilteredIssuesAreOrdered(issues: seq<Issue>, query: string, filters: Filters, order: SortOrder)
    ensures var r := FilteredIssues(issues, query, filters, order);
            order == Newest ==> forall i, j :: 0 <= i < j < |r| ==> r[i].createdAt >= r[j].createdAt
    ensures var r := FilteredIssues(issues, query, filters, order);
            order == Oldest ==> forall i, j :: 0 <= i < j < |r| ==> r[i].createdAt <= r[j].createdAt
    ensures var r := FilteredIssues(issues, query, filters, order);
            order == MostVoted ==> forall i, j :: 0 <= i < j < |r| ==> r[i].votes >= r[j].votes
    ensures var r := FilteredIssues(issues, query, filters, order);
            order == LeastVoted ==> forall i, j :: 0 <= i < j < |r| ==> r[i].votes <= r[j].votes
  {
    PrecedesIsTotalPreorder(order);
    SortSorted(Selection(issues, query, filters), Precedes(order));
  }

  /** Selected issues that the order cannot tell apart are listed in their
      store order. */
  lemma FilteredIssuesKeepTiesInOrder(issues: seq<Issue>, query: string, filters: Filters, order: SortOrder, v: Issue)
    ensures Filter(FilteredIssues(issues, query, filters, order), Ties(Precedes(order), v))
              == Filter(issues, (x: Issue) => Selected(x, query, filters) && Ties(Precedes(order), v)(x))
  {
    PrecedesIsTotalPreorder(order);
    SortStable(Selection(issues, query, filters), Precedes(order), v);
    SelectionIsOneFilter(issues, query, filters);
    FilterThenFilter(issues, SelectedBy(query, filters), Ties(Precedes(order), v),
                     (x: Issue) => Selected(x, query, filters) && Ties(Precedes(order), v)(x));
  }

  /** Every text contains the empty text. */
  lemma EmptyQueryMatches(issue: Issue)
    ensures MatchesQuery(issue, [])
  {
    assert OccursAt(ToLower(issue.title), ToLower([]), 0);
  }

  /** With nothing typed and no filter set, the page lists every issue,
      each as often as in the store. */
  lemma NoQueryNoFiltersListsEverything(issues: seq<Issue>, order: SortOrder)
    ensures multiset(FilteredIssues(issues, [], map[], order)) == multiset(issues)
  {
    forall x ensures Selected(x, [], map[]) {
      EmptyQueryMatches(x);
    }
    FilteredIssuesAreTheSelected(issues, [], map[], order);
  }

  lemma PositionsCount<T>(s: seq<T>, i: int, j: int)
    requires 0 <= i < j < |s| && s[i] == s[j]
    ensures multiset(s)[s[i]] >= 2
  {
    assert s == s[..j] + [s[j]] + s[j + 1..];
    assert s[..j][i] == s[i];
    assert s[i] in multiset(s[..j]);
  }

  lemma {:induction false} NoRepeatsCountOnce<T>(s: seq<T>, x: T)
    requires forall i, j :: 0 <= i < j < |s| ==> s[i] != s[j]
    ensures multiset(s)[x] <= 1
  {
    if s != [] {
      assert s == [s[0]] + s[1..];
      NoRepeatsCountOnce(s[1..], x);
      if s[0] == x {
        assert x !in s[1..];
      }
    }
  }

  /** A rearrangement of a sequence whose votes are pairwise different also
      has pairwise different votes. */
  lemma DistinctVotesSurvivePermutation(a: seq<Issue>, b: seq<Issue>)
    requires multiset(a) == multiset(b)
    requires forall i, j :: 0 <= i < j < |a| ==> a[i].votes != a[j].votes
    ensures forall i, j :: 0 <= i < j < |b| ==> b[i].votes != b[j].votes
  {
    forall i, j | 0 <= i < j < |b| ensures b[i].votes != b[j].votes {
      if b[i].votes == b[j].votes {
        assert b[i] in multiset(a) && b[j] in multiset(a);
        var p :| 0 <= p < |a| && a[p] == b[i];
        var q :| 0 <= q < |a| && a[q] == b[j];
        assert p == q;
        PositionsCount(b, i, j);
        NoRepeatsCountOnce(a, b[i]);
        assert false;
      }
    }
  }

  function NegatedVotes(i: Issue): int {
    -i.votes
  }

  /** Non-decreasing votes, no two equal: strictly decreasing negated votes. */
  lemma LeastVotedStrict(least: seq<Issue>)
    requires SortedBy(least, Precedes(LeastVoted))
    requires forall i, j :: 0 <= i < j < |least| ==> least[i].votes != least[j].votes
    ensures forall i, j :: 0 <= i < j < |least| ==> NegatedVotes(least[i]) > NegatedVotes(least[j])
  {
    forall i, j | 0 <= i < j < |least| ensures NegatedVotes(least[i]) > NegatedVotes(least[j]) {
      assert Precedes(LeastVoted)(least[i], least[j]);
    }
  }

  /** Non-increasing votes, no two equal, read backwards: strictly decreasing
      negated votes. */
  lemma MostVotedBackwardsStrict(most: seq<Issue>)
    requires SortedBy(most, Precedes(MostVoted))
    requires forall i, j :: 0 <= i < j < |most| ==> most[i].votes != most[j].votes
    ensures var back := Reverse(most);
            forall i, j :: 0 <= i < j < |back| ==> NegatedVotes(back[i]) > NegatedVotes(back[j])
  {
    var back := Reverse(most);
    var n := |most|;
    forall i, j | 0 <= i < j < |back| ensures NegatedVotes(back[i]) > NegatedVotes(back[j]) {
      assert Precedes(MostVoted)(most[n - 1 - j], most[n - 1 - i]);
      assert most[n - 1 - j].votes != most[n - 1 - i].votes;
    }
  }

  lemma LeastVotedSortIsStrict(s: seq<Issue>)
    requires forall i, j :: 0 <= i < j < |s| ==> s[i].votes != s[j].votes
    ensures var least := Sort(s, Precedes(LeastVoted));
            && multiset(least) == multiset(s)
            && forall i, j :: 0 <= i < j < |least| ==> NegatedVotes(least[i]) > NegatedVotes(least[j])
  {
    var least := Sort(s, Precedes(LeastVoted));
    PrecedesIsTotalPreorder(LeastVoted);
    SortSorted(s, Precedes(LeastVoted));
    DistinctVotesSurvivePermutation(s, least);
    LeastVotedStrict(least);
  }

  lemma MostVotedSortBackwardsIsStrict(s: seq<Issue>)
    requires forall i, j :: 0 <= i < j < |s| ==> s[i].votes != s[j].votes
    ensures var back := Reverse(Sort(s, Precedes(MostVoted)));
            && multiset(back) == multiset(s)
            && forall i, j :: 0 <= i < j < |back| ==> NegatedVotes(back[i]) > NegatedVotes(back[j])
  {
    var most := Sort(s, Precedes(MostVoted));
    PrecedesIsTotalPreorder(MostVoted);
    SortSorted(s, Precedes(MostVoted));
    DistinctVotesSurvivePermutation(s, most);
    MostVotedBackwardsStrict(most);
  }

  /** When no two issues have the same number of votes, "least voted" is
      "most voted" read backwards. */
  lemma LeastVotedIsMostVotedReversed(s: seq<Issue>)
    requires forall i, j :: 0 <= i < j < |s| ==> s[i].votes != s[j].votes
    ensures Sort(s, Precedes(LeastVoted)) == Reverse(Sort(s, Precedes(MostVoted)))
  {
    var least := Sort(s, Precedes(LeastVoted));
    var back := Reverse(Sort(s, Precedes(MostVoted)));
    LeastVotedSortIsStrict(s);
    MostVotedSortBackwardsIsStrict(s);
    StrictlyOrderedIsUnique(least, back, NegatedVotes);
  }
}
