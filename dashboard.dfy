/** The dashboard of a signed-in user: a role-dependent list of up to six
    issues, the six newest issues, and three counts. */
module Dashboard {
  import opened Types
  import opened Seqs
  import opened Sorting

  /** How many issues each list shows. */
  const ListLimit: nat := 6

  datatype DashboardView = DashboardView(
    listed: seq<Issue>,
    recent: seq<Issue>,
    total: nat,
    resolvedCount: nat,
    openCount: nat)

  /** An administrator sees the unresolved issues, a student their own. */
  function RoleList(user: User, issues: seq<Issue>): seq<Issue> {
    if user.role == Admin then Take(Filter(issues, IsUnresolved), ListLimit)
    else Take(Filter(issues, (i: Issue) => i.createdBy.id == user.id), ListLimit)
  }

  /** The comparator of `recentIssues`, as "may stay in front of": the
      difference of the creation times, newer first. */
  predicate Newer(a: Issue, b: Issue) {
    a.createdAt >= b.createdAt
  }

  lemma NewerIsTotalPreorder()
    ensures TotalPreorder(Newer)
  {
  }

  /** `recentIssues`: the newest six, sorted on a copy of the store. */
  function RecentIssues(issues: seq<Issue>): seq<Issue> {
    Take(Sort(issues, Newer), ListLimit)
  }

  /** The page renders nothing without a signed-in user. */
  function DashboardOf(user: Option<User>, issues: seq<Issue>): (r: Option<DashboardView>)
    ensures r.Some? <==> user.Some?
  {
    match user
    case None => None
    case Some(u) =>
      Some(DashboardView(RoleList(u, issues), RecentIssues(issues), |issues|,
                         |Filter(issues, IsResolved)|, |Filter(issues, IsUnresolved)|))
  }

  /** An administrator's list: the first six unresolved issues in store
      order. It has at most six issues, none resolved, is shorter than six only
      when it holds every unresolved issue, and (the store holding no issue
      twice) no unresolved issue in front of a listed one is left out. */
  lemma AdminList(user: User, issues: seq<Issue>)
    requires user.role == Admin
    ensures var l := RoleList(user, issues);
            && |l| <= ListLimit
            && |l| == (if |Filter(issues, IsUnresolved)| <= ListLimit then |Filter(issues, IsUnresolved)| else ListLimit)
            && l <= Filter(issues, IsUnresolved)
            && (forall x :: x in l ==> x in issues && x.status != Resolved)
            && IsSubsequence(l, issues)
            && (|l| < ListLimit ==> forall x :: x in issues && x.status != Resolved ==> x in l)
            && ((forall a, b :: 0 <= a < b < |issues| ==> issues[a] != issues[b]) ==>
                forall i, j :: 0 <= i < j < |issues| && issues[j] in l && issues[i].status != Resolved ==> issues[i] in l)
  {
    var f := Filter(issues, IsUnresolved);
    FilterIsSubsequence(issues, IsUnresolved);
    if |f| > ListLimit {
      PrefixOfSubsequence(f, issues, ListLimit);
      assert forall x :: x in f[..ListLimit] ==> x in f;
    }
    if forall a, b :: 0 <= a < b < |issues| ==> issues[a] != issues[b] {
      DistinctHasNoRepeats(issues);
      FirstMatchesIsTakeFilter(issues, IsUnresolved, ListLimit);
      var l := RoleList(user, issues);
      forall i, j | 0 <= i < j < |issues| && issues[j] in l && issues[i].status != Resolved
        ensures issues[i] in l
      {
        FirstMatchesSkipNothing(issues, IsUnresolved, ListLimit, i, j);
      }
    }
  }

  /** A student's list: the first six issues that student created, in store
      order. It has at most six issues, all the student's, is shorter than six
      only when it holds all of them, and (the store holding no issue twice)
      none of the student's issues in front of a listed one is left out. */
  lemma StudentList(user: User, issues: seq<Issue>)
    requires user.role == Student
    ensures var l := RoleList(user, issues);
            && |l| <= ListLimit
            && |l| == (if |Filter(issues, (i: Issue) => i.createdBy.id == user.id)| <= ListLimit
                       then |Filter(issues, (i: Issue) => i.createdBy.id == user.id)| else ListLimit)
            && l <= Filter(issues, (i: Issue) => i.createdBy.id == user.id)
            && (forall x :: x in l ==> x in issues && x.createdBy.id == user.id)
            && IsSubsequence(l, issues)
            && (|l| < ListLimit ==> forall x :: x in issues && x.createdBy.id == user.id ==> x in l)
            && ((forall a, b :: 0 <= a < b < |issues| ==> issues[a] != issues[b]) ==>
                forall i, j :: 0 <= i < j < |issues| && issues[j] in l && issues[i].createdBy.id == user.id ==> issues[i] in l)
  {
    var f := Filter(issues, (i: Issue) => i.createdBy.id == user.id);
    FilterIsSubsequence(issues, (i: Issue) => i.createdBy.id == user.id);
    if |f| > ListLimit {
      PrefixOfSubsequence(f, issues, ListLimit);
      assert forall x :: x in f[..ListLimit] ==> x in f;
    }
    if forall a, b :: 0 <= a < b < |issues| ==> issues[a] != issues[b] {
      DistinctHasNoRepeats(issues);
      FirstMatchesIsTakeFilter(issues, (i: Issue) => i.createdBy.id == user.id, ListLimit);
      var l := RoleList(user, issues);
      forall i, j | 0 <= i < j < |issues| && issues[j] in l && issues[i].createdBy.id == user.id
        ensures issues[i] in l
      {
        FirstMatchesSkipNothing(issues, (i: Issue) => i.createdBy.id == user.id, ListLimit, i, j);
      }
    }
  }

  lemma NewestFirst(issues: seq<Issue>, s: seq<Issue>)
    requires s == Sort(issues, Newer)
    ensures forall i, j :: 0 <= i < j < |s| ==> s[i].createdAt >= s[j].createdAt
  {
    NewerIsTotalPreorder();
    SortSorted(issues, Newer);
    forall i, j | 0 <= i < j < |s| ensures s[i].createdAt >= s[j].createdAt {
      assert Newer(s[i], s[j]);
    }
  }

  /** The recent list: six issues of the store (or all when there are fewer),
      each shown no more often than the store holds it, newest first, and no
      issue left out is newer than one shown. */
  lemma RecentIssuesAreTheNewest(issues: seq<Issue>)
    ensures var r := RecentIssues(issues);
            && |r| == (if |issues| <= ListLimit then |issues| else ListLimit)
            && multiset(r) <= multiset(issues)
            && (forall i, j :: 0 <= i < j < |r| ==> r[i].createdAt >= r[j].createdAt)
            && (forall x :: x in r ==> x in issues)
            && (forall x, y :: x in r && y in issues && y !in r ==> x.createdAt >= y.createdAt)
  {
    var s := Sort(issues, Newer);
    NewestFirst(issues, s);
    TopOfNewestFirst(issues, s);
  }

  /** Among issues created at the same time, the recent list holds the ones
      that come first in the store: the stable sort keeps their store order and
      the cut at six takes a prefix of it. */
  lemma RecentIssuesKeepTiesInOrder(issues: seq<Issue>, v: Issue)
    ensures Filter(RecentIssues(issues), Ties(Newer, v)) <= Filter(issues, Ties(Newer, v))
  {
    var s := Sort(issues, Newer);
    NewerIsTotalPreorder();
    SortStable(issues, Newer, v);
    FilterPrefix(Take(s, ListLimit), s, Ties(Newer, v));
  }

  /** The first six of a newest-first rearrangement of the store are the
      newest six. */
  lemma TopOfNewestFirst(issues: seq<Issue>, s: seq<Issue>)
    requires multiset(s) == multiset(issues)
    requires forall i, j :: 0 <= i < j < |s| ==> s[i].createdAt >= s[j].createdAt
    ensures var r := Take(s, ListLimit);
            && |r| == (if |issues| <= ListLimit then |issues| else ListLimit)
            && multiset(r) <= multiset(issues)
            && (forall i, j :: 0 <= i < j < |r| ==> r[i].createdAt >= r[j].createdAt)
            && (forall x :: x in r ==> x in issues)
            && (forall x, y :: x in r && y in issues && y !in r ==> x.createdAt >= y.createdAt)
  {
    var r := Take(s, ListLimit);
    assert |s| == |multiset(s)| == |issues|;
    assert s == r + s[|r|..];
    assert multiset(s) == multiset(r) + multiset(s[|r|..]);
    forall i, j | 0 <= i < j < |r| ensures r[i].createdAt >= r[j].createdAt {
      assert r[i] == s[i] && r[j] == s[j];
    }
    forall x | x in r ensures x in issues {
      assert x in multiset(s);
    }
    forall x, y | x in r && y in issues && y !in r ensures x.createdAt >= y.createdAt {
      assert y in multiset(s);
      var k :| 0 <= k < |s| && s[k] == y;
      var i :| 0 <= i < |r| && r[i] == x;
      assert k >= |r| && s[i] == x;
      assert s[i].createdAt >= s[k].createdAt;
    }
  }

  /** The resolved and the open count add up to the total. */
  lemma CountsAddUp(user: Option<User>, issues: seq<Issue>)
    requires user.Some?
    ensures var v := DashboardOf(user, issues).value;
            v.resolvedCount + v.openCount == v.total
  {
    FilterSplitsLength(issues, IsResolved, IsUnresolved);
  }
}
