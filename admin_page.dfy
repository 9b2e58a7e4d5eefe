/** The administrator's page: the issues of the selected status tab and the
    number of issues in each status. */
module AdminPage {
  import opened Types
  import opened Seqs

  datatype AdminView = AdminView(
    listed: seq<Issue>,
    openCount: nat,
    inProgressCount: nat,
    resolvedCount: nat)

  /** The test of each tab; a tab name the page does not know keeps everything. */
  predicate InTab(tab: string, issue: Issue) {
    if tab == "open" then issue.status == Open
    else if tab == "in-progress" then issue.status == InProgress
    else if tab == "resolved" then issue.status == Resolved
    else true
  }

  function TabIssues(issues: seq<Issue>, tab: string): seq<Issue> {
    if tab == "all" then issues else Filter(issues, (i: Issue) => InTab(tab, i))
  }

  /** The page renders nothing unless an administrator is signed in. */
  function AdminPageOf(user: Option<User>, issues: seq<Issue>, tab: string): (r: Option<AdminView>)
    ensures r.Some? <==> user.Some? && user.value.role == Admin
  {
    if user.None? || user.value.role != Admin then None
    else Some(AdminView(TabIssues(issues, tab), |Filter(issues, IsOpen)|,
                        |Filter(issues, IsInProgress)|, |Filter(issues, IsResolved)|))
  }

  /** The `all` tab, and any tab the page does not know, list the store as it is. */
  lemma AllTabListsEverything(issues: seq<Issue>, tab: string)
    requires !(tab in {"open", "in-progress", "resolved"})
    ensures TabIssues(issues, tab) == issues
  {
    if tab != "all" {
      FilterKeepsAll(issues, (i: Issue) => InTab(tab, i));
    }
  }

  /** A status tab lists exactly the issues with that status, each as often
      as in the store, in store order. */
  lemma StatusTabListsThatStatus(issues: seq<Issue>, tab: string, status: IssueStatus)
    requires tab == StatusName(status)
    ensures var r := TabIssues(issues, tab);
            && (forall x :: multiset(r)[x] == if x.status == status then multiset(issues)[x] else 0)
            && IsSubsequence(r, issues)
  {
    assert tab != "all";
    FilterCounts(issues, (i: Issue) => InTab(tab, i));
    FilterIsSubsequence(issues, (i: Issue) => InTab(tab, i));
    forall x ensures InTab(tab, x) == (x.status == status) {
    }
  }

  /** Every issue is counted in exactly one of the three status counts. */
  lemma CountsAddUp(user: Option<User>, issues: seq<Issue>, tab: string)
    requires user.Some? && user.value.role == Admin
    ensures var v := AdminPageOf(user, issues, tab).value;
            v.openCount + v.inProgressCount + v.resolvedCount == |issues|
  {
    FilterSplitsLength3(issues, IsOpen, IsInProgress, IsResolved);
  }
}
