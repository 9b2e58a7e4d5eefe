/** The issue/comment store: two insertion-ordered sequences changed only by
    seven operations, each gated on a signed-in user and some on the admin
    role. The signed-in user and the clock are parameters of every operation. */
module IssueContext {
  import opened Types
  import opened Seqs

  const AdminUser: User :=
    User(2, "Admin User", "admin@campus.edu", Admin, Some("https://api.dicebear.com/7.x/avataaars/svg?seed=Admin"))

  const StudentUser: User :=
    User(1, "John Student", "student@campus.edu", Student, Some("https://api.dicebear.com/7.x/avataaars/svg?seed=John"))

  /** The issues the store starts with. */
  const MockIssues: seq<Issue> := [
    Issue(1, "Broken water fountain in Science Building",
      "The water fountain on the 2nd floor of the Science Building is not working properly. It only dispenses hot water.",
      Open, Medium, Facilities, 1742896800000, 1742896800000, StudentUser, None, None, 5),
    Issue(2, "Course registration system error",
      "I am unable to register for COMP101 even though there are open slots. The system shows an error code E-435.",
      InProgress, High, Academics, 1742830200000, 1742980500000, StudentUser, Some(AdminUser), None, 8),
    Issue(3, "Library hours during finals week",
      "Can the library hours be extended during finals week? The current hours are not sufficient for studying.",
      Resolved, Low, Administration, 1742471100000, 1743085200000, StudentUser, None, Some(4), 15)
  ]

  /** The comments the store starts with. */
  const MockComments: seq<Comment> := [
    Comment(1, "I have notified the facilities department. They will look into it as soon as possible.",
      1742913000000, 1742913000000, AdminUser, 1, true, None),
    Comment(2, "I am also experiencing the same issue with course registration.",
      1742834700000, 1742834700000, StudentUser, 2, false, None),
    Comment(3, "The IT department is working on fixing the registration system. Expected resolution by tomorrow.",
      1742980500000, 1742980500000, AdminUser, 2, true, Some(5)),
    Comment(4, "We have decided to extend library hours during finals week. The library will now be open 24/7 for two weeks.",
      1743085200000, 1743085200000, AdminUser, 3, true, Some(5))
  ]

  /** New records get id `length + 1` and nothing is deleted, so the ids are
      exactly 1..n in order. */
  ghost predicate IssueIdsSequential(issues: seq<Issue>) {
    forall i :: 0 <= i < |issues| ==> issues[i].id == i + 1
  }

  ghost predicate CommentIdsSequential(comments: seq<Comment>) {
    forall i :: 0 <= i < |comments| ==> comments[i].id == i + 1
  }

  ghost predicate VotesNonNegative(issues: seq<Issue>) {
    forall i :: 0 <= i < |issues| ==> issues[i].votes >= 0
  }

  // The record rewrites of the seven operations (the object spreads).

  function StatusSet(issue: Issue, status: IssueStatus, now: Time): Issue {
    issue.(status := status, updatedAt := now)
  }

  /** A vote adds one; taking a vote back never goes below zero. */
  function Voted(issue: Issue, increment: bool, now: Time): (r: Issue)
    ensures increment ==> r.votes == issue.votes + 1
    ensures !increment ==> r.votes == if issue.votes > 0 then issue.votes - 1 else 0
    ensures issue.votes >= 0 ==> r.votes >= 0
    ensures r.updatedAt == now
    ensures r.(votes := issue.votes, updatedAt := issue.updatedAt) == issue
  {
    issue.(votes := if increment then issue.votes + 1 else Max(0, issue.votes - 1), updatedAt := now)
  }

  function Max(a: int, b: int): int {
    if a < b then b else a
  }

  function Rated(issue: Issue, rating: int, now: Time): Issue {
    issue.(rating := Some(rating), updatedAt := now)
  }

  /** `assignIssue` always assigns the built-in administrator. */
  function Assigned(issue: Issue, now: Time): Issue {
    issue.(assignedTo := Some(AdminUser), status := InProgress, updatedAt := now)
  }

  /** An official response moves an open issue to in progress and leaves any
      other issue exactly as it was. */
  function Responded(issue: Issue, now: Time): (r: Issue)
    ensures issue.status == Open ==> r.status == InProgress
    ensures issue.status != Open ==> r == issue
    ensures r.(status := issue.status, updatedAt := issue.updatedAt) == issue
  {
    if issue.status == Open then StatusSet(issue, InProgress, now) else issue
  }

  function CommentRated(comment: Comment, rating: int, now: Time): Comment {
    comment.(rating := Some(rating), updatedAt := now)
  }

  function IssueId(issue: Issue): Id { issue.id }
  function CommentId(comment: Comment): Id { comment.id }

  /** `prev.map(x => x.id === id ? f(x) : x)`, over the issues or the comments. */
  function UpdateById<T>(xs: seq<T>, id: Id, key: T -> Id, f: T -> T): (r: seq<T>)
    ensures |r| == |xs|
  {
    seq(|xs|, i requires 0 <= i < |xs| => if key(xs[i]) == id then f(xs[i]) else xs[i])
  }

  /** With ids 1..n, rewriting "every record whose id matches" rewrites the
      one record at position id - 1, or nothing when the id is out of range;
      the ids stay 1..n when the rewrite keeps ids. */
  lemma UpdateByIdIsPointUpdate<T>(xs: seq<T>, id: Id, key: T -> Id, f: T -> T)
    requires forall i :: 0 <= i < |xs| ==> key(xs[i]) == i + 1
    requires forall x :: key(f(x)) == key(x)
    ensures UpdateById(xs, id, key, f) == if 1 <= id <= |xs| then xs[id - 1 := f(xs[id - 1])] else xs
    ensures var r := UpdateById(xs, id, key, f);
            forall i :: 0 <= i < |r| ==> key(r[i]) == i + 1
  {
    var r := UpdateById(xs, id, key, f);
    if 1 <= id <= |xs| {
      assert forall i :: 0 <= i < |xs| ==> r[i] == xs[id - 1 := f(xs[id - 1])][i];
    } else {
      assert forall i :: 0 <= i < |xs| ==> r[i] == xs[i];
    }
  }


  /** The id `length + 1` given to a new issue belongs to no existing issue,
      and appending it keeps the ids 1..n. */
  lemma NewIssueIdIsFresh(issues: seq<Issue>, added: Issue)
    requires IssueIdsSequential(issues)
    requires added.id == |issues| + 1
    ensures forall i :: 0 <= i < |issues| ==> issues[i].id != added.id
    ensures IssueIdsSequential(issues + [added])
  {
  }

  lemma NewCommentIdIsFresh(comments: seq<Comment>, added: Comment)
    requires CommentIdsSequential(comments)
    requires added.id == |comments| + 1
    ensures forall i :: 0 <= i < |comments| ==> comments[i].id != added.id
    ensures CommentIdsSequential(comments + [added])
  {
  }

  /** `issues.find(x => x.id === id)`: the first issue with that id, if any. */
  function FindIssue(issues: seq<Issue>, id: Id): (r: Option<Issue>)
    ensures r.None? <==> forall i :: 0 <= i < |issues| ==> issues[i].id != id
    ensures r.Some? ==> exists i :: 0 <= i < |issues| && issues[i] == r.value && issues[i].id == id
                                    && forall j :: 0 <= j < i ==> issues[j].id != id
  {
    if issues == [] then None
    else if issues[0].id == id then Some(issues[0])
    else
      var r := FindIssue(issues[1..], id);
      assert forall i :: 1 <= i < |issues| ==> issues[i] == issues[1..][i - 1];
      r
  }

  /** With ids 1..n, looking up an id finds the issue at position id - 1. */
  lemma FindIssueByPosition(issues: seq<Issue>, id: Id)
    requires IssueIdsSequential(issues)
    ensures FindIssue(issues, id) == if 1 <= id <= |issues| then Some(issues[id - 1]) else None
  {
    if 1 <= id <= |issues| {
      assert issues[id - 1].id == id;
    }
  }

  /** `comments.filter(c => c.issueId === issueId)`: exactly the comments on
      that issue, each as often as it occurs, in insertion order. */
  function CommentsOf(comments: seq<Comment>, issueId: Id): (r: seq<Comment>)
    ensures forall c :: c in r <==> c in comments && c.issueId == issueId
    ensures forall c :: multiset(r)[c] == if c.issueId == issueId then multiset(comments)[c] else 0
    ensures IsSubsequence(r, comments)
  {
    var onIssue := (c: Comment) => c.issueId == issueId;
    FilterCounts(comments, onIssue);
    FilterIsSubsequence(comments, onIssue);
    Filter(comments, onIssue)
  }

  /** A comment appended to the store shows up last among its issue's
      comments, and the other issues' comments do not change. */
  lemma CommentsOfAppend(comments: seq<Comment>, c: Comment, issueId: Id)
    ensures CommentsOf(comments + [c], issueId)
         == if c.issueId == issueId then CommentsOf(comments, issueId) + [c] else CommentsOf(comments, issueId)
  {
    FilterAppend(comments, [c], (x: Comment) => x.issueId == issueId);
    assert [c][1..] == [];
  }

  class IssueStore {
    var issues: seq<Issue>
    var comments: seq<Comment>

    ghost predicate Valid()
      reads this
    {
      IssueIdsSequential(issues) && CommentIdsSequential(comments) && VotesNonNegative(issues)
    }

    /** The store once the fixtures have loaded. */
    constructor ()
      ensures Valid()
      ensures issues == MockIssues && comments == MockComments
    {
      issues := MockIssues;
      comments := MockComments;
    }

    function GetIssueById(id: Id): Option<Issue>
      reads this
    {
      FindIssue(issues, id)
    }

    function GetCommentsByIssueId(issueId: Id): seq<Comment>
      reads this
    {
      CommentsOf(comments, issueId)
    }

    method AddIssue(user: Option<User>, title: string, description: string,
                    category: IssueCategory, priority: IssuePriority, now: Time)
      returns (r: Result<Issue>)
      requires Valid()
      modifies this
      ensures Valid()
      ensures comments == old(comments)
      ensures user.None? ==> r == Err(NotAuthenticated) && issues == old(issues)
      ensures user.Some? ==>
        && r == Ok(Issue(|old(issues)| + 1, title, description, Open, priority, category,
                         now, now, user.value, None, None, 0))
        && issues == old(issues) + [r.value]
      ensures r.Ok? ==> forall i :: 0 <= i < |old(issues)| ==> old(issues)[i].id != r.value.id
    {
      if user.None? {
        return Err(NotAuthenticated);
      }
      var issue := Issue(|issues| + 1, title, description, Open, priority, category,
                         now, now, user.value, None, None, 0);
      NewIssueIdIsFresh(issues, issue);
      issues := issues + [issue];
      r := Ok(issue);
    }

    method UpdateIssueStatus(user: Option<User>, issueId: Id, status: IssueStatus, now: Time)
      returns (r: Outcome)
      requires Valid()
      modifies this
      ensures Valid()
      ensures comments == old(comments)
      ensures user.None? ==> r == Failed(NotAuthenticated) && issues == old(issues)
      ensures user.Some? && user.value.role != Admin ==> r == Failed(Forbidden) && issues == old(issues)
      ensures user.Some? && user.value.role == Admin ==>
        && r == Done
        && issues == if 1 <= issueId <= |old(issues)|
                     then old(issues)[issueId - 1 := StatusSet(old(issues)[issueId - 1], status, now)]
                     else old(issues)
    {
      if user.None? {
        return Failed(NotAuthenticated);
      }
      if user.value.role != Admin {
        return Failed(Forbidden);
      }
      var f := (x: Issue) => StatusSet(x, status, now);
      UpdateByIdIsPointUpdate(issues, issueId, IssueId, f);
      issues := UpdateById(issues, issueId, IssueId, f);
      r := Done;
    }

    method AddComment(user: Option<User>, issueId: Id, content: string, isResponse: bool, now: Time)
      returns (r: Result<Comment>)
      requires Valid()
      modifies this
      ensures Valid()
      ensures user.None? ==> r == Err(NotAuthenticated)
      ensures user.Some? && isResponse && user.value.role != Admin ==> r == Err(Forbidden)
      ensures r.Err? ==> issues == old(issues) && comments == old(comments)
      ensures user.Some? && (isResponse ==> user.value.role == Admin) ==>
        && r == Ok(Comment(|old(comments)| + 1, content, now, now, user.value, issueId, isResponse, None))
        && comments == old(comments) + [r.value]
        && issues == if isResponse && 1 <= issueId <= |old(issues)|
                     then old(issues)[issueId - 1 := Responded(old(issues)[issueId - 1], now)]
                     else old(issues)
    {
      if user.None? {
        return Err(NotAuthenticated);
      }
      if isResponse && user.value.role != Admin {
        return Err(Forbidden);
      }
      var comment := Comment(|comments| + 1, content, now, now, user.value, issueId, isResponse, None);
      NewCommentIdIsFresh(comments, comment);
      comments := comments + [comment];
      if isResponse {
        var f := (x: Issue) => Responded(x, now);
        UpdateByIdIsPointUpdate(issues, issueId, IssueId, f);
        issues := UpdateById(issues, issueId, IssueId, f);
      }
      r := Ok(comment);
    }

    method VoteIssue(user: Option<User>, issueId: Id, increment: bool, now: Time)
      returns (r: Outcome)
      requires Valid()
      modifies this
      ensures Valid()
      ensures comments == old(comments)
      ensures user.None? ==> r == Failed(NotAuthenticated) && issues == old(issues)
      ensures user.Some? ==>
        && r == Done
        && issues == if 1 <= issueId <= |old(issues)|
                     then old(issues)[issueId - 1 := Voted(old(issues)[issueId - 1], increment, now)]
                     else old(issues)
    {
      if user.None? {
        return Failed(NotAuthenticated);
      }
      var f := (x: Issue) => Voted(x, increment, now);
      UpdateByIdIsPointUpdate(issues, issueId, IssueId, f);
      issues := UpdateById(issues, issueId, IssueId, f);
      r := Done;
    }

    method RateIssue(user: Option<User>, issueId: Id, rating: int, now: Time)
      returns (r: Outcome)
      requires Valid()
      modifies this
      ensures Valid()
      ensures comments == old(comments)
      ensures user.None? ==> r == Failed(NotAuthenticated) && issues == old(issues)
      ensures user.Some? ==>
        && r == Done
        && issues == if 1 <= issueId <= |old(issues)|
                     then old(issues)[issueId - 1 := Rated(old(issues)[issueId - 1], rating, now)]
                     else old(issues)
    {
      if user.None? {
        return Failed(NotAuthenticated);
      }
      var f := (x: Issue) => Rated(x, rating, now);
      UpdateByIdIsPointUpdate(issues, issueId, IssueId, f);
      issues := UpdateById(issues, issueId, IssueId, f);
      r := Done;
    }

    method RateComment(user: Option<User>, commentId: Id, rating: int, now: Time)
      returns (r: Outcome)
      requires Valid()
      modifies this
      ensures Valid()
      ensures issues == old(issues)
      ensures user.None? ==> r == Failed(NotAuthenticated) && comments == old(comments)
      ensures user.Some? ==>
        && r == Done
        && comments == if 1 <= commentId <= |old(comments)|
                       then old(comments)[commentId - 1 := CommentRated(old(comments)[commentId - 1], rating, now)]
                       else old(comments)
    {
      if user.None? {
        return Failed(NotAuthenticated);
      }
      var f := (x: Comment) => CommentRated(x, rating, now);
      UpdateByIdIsPointUpdate(comments, commentId, CommentId, f);
      comments := UpdateById(comments, commentId, CommentId, f);
      r := Done;
    }

    /** The `userId` argument plays no part: the built-in administrator is
        always the one assigned. */
    method AssignIssue(user: Option<User>, issueId: Id, userId: Id, now: Time)
      returns (r: Outcome)
      requires Valid()
      modifies this
      ensures Valid()
      ensures comments == old(comments)
      ensures user.None? ==> r == Failed(NotAuthenticated) && issues == old(issues)
      ensures user.Some? && user.value.role != Admin ==> r == Failed(Forbidden) && issues == old(issues)
      ensures user.Some? && user.value.role == Admin ==>
        && r == Done
        && issues == if 1 <= issueId <= |old(issues)|
                     then old(issues)[issueId - 1 := Assigned(old(issues)[issueId - 1], now)]
                     else old(issues)
    {
      if user.None? {
        return Failed(NotAuthenticated);
      }
      if user.value.role != Admin {
        return Failed(Forbidden);
      }
      var f := (x: Issue) => Assigned(x, now);
      UpdateByIdIsPointUpdate(issues, issueId, IssueId, f);
      issues := UpdateById(issues, issueId, IssueId, f);
      r := Done;
    }
  }
}
