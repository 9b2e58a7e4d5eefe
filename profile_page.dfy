/** The profile page: the signed-in user's own issues, split into resolved
    and pending, with the first four shown. */
module ProfilePage {
  import opened Types
  import opened Seqs

  /** How many of their issues the page shows. */
  const ShownLimit: nat := 4

  datatype ProfileView = ProfileView(
    userIssues: seq<Issue>,
    resolvedIssues: seq<Issue>,
    pendingIssues: seq<Issue>,
    shown: seq<Issue>,
    viewAll: bool)

  function OwnIssues(issues: seq<Issue>, user: User): seq<Issue> {
    Filter(issues, (i: Issue) => i.createdBy.id == user.id)
  }

  /** The page renders nothing without a signed-in user. */
  function ProfileOf(user: Option<User>, issues: seq<Issue>): (r: Option<ProfileView>)
    ensures r.Some? <==> user.Some?
  {
    match user
    case None => None
    case Some(u) =>
      var own := OwnIssues(issues, u);
      Some(ProfileView(own, Filter(own, IsResolved), Filter(own, IsUnresolved),
                       Take(own, ShownLimit), |own| > ShownLimit))
  }

  /** The user's issues are exactly those they created, each as often as in
      the store and in store order; the resolved and the pending ones split
      them. */
  lemma OwnIssuesSplit(user: Option<User>, issues: seq<Issue>)
    requires user.Some?
    ensures var v := ProfileOf(user, issues).value;
            && (forall x :: multiset(v.userIssues)[x]
                            == if x.createdBy.id == user.value.id then multiset(issues)[x] else 0)
            && IsSubsequence(v.userIssues, issues)
            && (forall x :: x in v.resolvedIssues ==> x.status == Resolved)
            && (forall x :: x in v.pendingIssues ==> x.status != Resolved)
            && multiset(v.resolvedIssues) + multiset(v.pendingIssues) == multiset(v.userIssues)
            && |v.resolvedIssues| + |v.pendingIssues| == |v.userIssues|
  {
    var own := OwnIssues(issues, user.value);
    FilterCounts(issues, (i: Issue) => i.createdBy.id == user.value.id);
    FilterIsSubsequence(issues, (i: Issue) => i.createdBy.id == user.value.id);
    FilterSplitsLength(own, IsResolved, IsUnresolved);
  }

  /** The first four of the user's issues are shown (all of them when there
      are fewer), the empty-state card appears exactly when there are none,
      and "View All" appears exactly when the user has more than four, which
      is exactly when some are not shown. */
  lemma ShownIssues(user: Option<User>, issues: seq<Issue>)
    requires user.Some?
    ensures var v := ProfileOf(user, issues).value;
            && |v.shown| == (if |v.userIssues| <= ShownLimit then |v.userIssues| else ShownLimit)
            && v.shown <= v.userIssues
            && (v.shown == [] <==> v.userIssues == [])
            && (v.viewAll <==> |v.userIssues| > ShownLimit)
            && (v.viewAll <==> |v.shown| < |v.userIssues|)
  {
  }
}
