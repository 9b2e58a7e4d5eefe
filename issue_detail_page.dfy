/** The page of one issue: its comments with official responses first, and
    the handlers that vote, comment, change the status and rate, each
    guarded before it calls the store. */
module IssueDetailPage {
  import opened Types
  import opened Seqs
  import opened Sorting
  import opened JsString
  import opened IssueContext

  /** The comparator of `sortedComments` as "may stay in front of": a response
      goes before a non-response, and within the same kind the newer goes first. */
  function ResponseFirst(a: Comment, b: Comment): bool {
    (a.isResponse && !b.isResponse) || (a.isResponse == b.isResponse && a.createdAt >= b.createdAt)
  }

  lemma ResponseFirstIsTotalPreorder()
    ensures TotalPreorder(ResponseFirst)
  {
  }

  /** `sortedComments`: the issue's comments, sorted on a copy. */
  function SortedComments(comments: seq<Comment>, issueId: Id): seq<Comment> {
    Sort(CommentsOf(comments, issueId), ResponseFirst)
  }

  /** The sorted list holds exactly the issue's comments, each as often as in
      the store; every response comes before every other comment; and within
      each kind the dates do not increase. */
  lemma SortedCommentsProperties(comments: seq<Comment>, issueId: Id)
    ensures var r := SortedComments(comments, issueId);
            forall c :: multiset(r)[c] == if c.issueId == issueId then multiset(comments)[c] else 0
    ensures var r := SortedComments(comments, issueId);
            forall i, j :: 0 <= i < j < |r| && r[j].isResponse ==> r[i].isResponse
    ensures var r := SortedComments(comments, issueId);
            forall i, j :: 0 <= i < j < |r| && r[i].isResponse == r[j].isResponse ==> r[i].createdAt >= r[j].createdAt
  {
    ResponseFirstIsTotalPreorder();
    SortSorted(CommentsOf(comments, issueId), ResponseFirst);
    var r := SortedComments(comments, issueId);
    forall i, j | 0 <= i < j < |r| ensures ResponseFirst(r[i], r[j]) {
    }
  }

  /** The rating widget is read-only once the issue has a rating other than
      0, or when nobody is signed in. */
  predicate RatingReadOnly(issue: Issue, user: Option<User>) {
    (issue.rating.Some? && issue.rating.value != 0) || user.None?
  }

  /** Once an issue is rated, its widget turns read-only, except that a
      rating of 0 counts as no rating and leaves it editable. */
  lemma RatingLocksWidget(issue: Issue, rating: int, now: Time, user: Option<User>)
    ensures rating != 0 ==> RatingReadOnly(Rated(issue, rating, now), user)
    ensures rating == 0 && user.Some? ==> !RatingReadOnly(Rated(issue, rating, now), user)
  {
  }

  class IssueDetail {
    const store: IssueStore
    /** The id in the route. */
    const issueId: Id
    /** The draft in the comment box. */
    var comment: string

    ghost predicate Valid()
      reads this, store
    {
      store.Valid()
    }

    constructor (store: IssueStore, issueId: Id)
      requires store.Valid()
      ensures Valid()
      ensures this.store == store && this.issueId == issueId && comment == ""
    {
      this.store := store;
      this.issueId := issueId;
      comment := "";
    }

    /** The page shows an issue only when the route id names one. */
    ghost predicate Shown()
      reads this, store
    {
      1 <= issueId <= |store.issues|
    }

    /** Typing in the comment box. */
    method UpdateDraft(text: string)
      modifies this
      ensures comment == text
    {
      comment := text;
    }

    /** Votes up, for a signed-in user only. */
    method HandleVote(user: Option<User>, now: Time) returns (called: bool)
      requires Valid()
      modifies store
      ensures Valid()
      ensures called <==> old(Shown()) && user.Some?
      ensures store.comments == old(store.comments)
      ensures !called ==> store.issues == old(store.issues)
      ensures called ==>
        store.issues == old(store.issues)[issueId - 1 := Voted(old(store.issues)[issueId - 1], true, now)]
    {
      FindIssueByPosition(store.issues, issueId);
      var issue := store.GetIssueById(issueId);
      if issue.None? || user.None? {
        return false;
      }
      var _ := store.VoteIssue(user, issue.value.id, true, now);
      called := true;
    }

    /** Posts the draft for a signed-in user when it is not blank after
        trimming; an administrator's comment is always an official response.
        The draft is cleared once the comment is stored. */
    method HandleCommentSubmit(user: Option<User>, now: Time) returns (called: bool)
      requires Valid()
      modifies store, this
      ensures Valid()
      ensures called <==> old(Shown()) && user.Some? && Trim(old(comment)) != []
      ensures !called ==> store.issues == old(store.issues) && store.comments == old(store.comments)
                          && comment == old(comment)
      ensures called ==>
        && comment == ""
        && store.comments == old(store.comments) + [Comment(|old(store.comments)| + 1, old(comment), now, now,
                                                          user.value, issueId, user.value.role == Admin, None)]
        && store.issues == if user.value.role == Admin
                           then old(store.issues)[issueId - 1 := Responded(old(store.issues)[issueId - 1], now)]
                           else old(store.issues)
    {
      FindIssueByPosition(store.issues, issueId);
      var issue := store.GetIssueById(issueId);
      if issue.None? || user.None? || Trim(comment) == [] {
        return false;
      }
      var isResponse := user.value.role == Admin;
      ghost var stored := Comment(|store.comments| + 1, comment, now, now, user.value, issueId, isResponse, None);
      var r := store.AddComment(user, issue.value.id, comment, isResponse, now);
      assert r == Ok(stored);
      if r.Ok? {
        comment := "";
      }
      called := true;
    }

    /** Changes the status, for an administrator only. */
    method HandleStatusChange(user: Option<User>, status: IssueStatus, now: Time) returns (called: bool)
      requires Valid()
      modifies store
      ensures Valid()
      ensures called <==> old(Shown()) && user.Some? && user.value.role == Admin
      ensures store.comments == old(store.comments)
      ensures !called ==> store.issues == old(store.issues)
      ensures called ==>
        store.issues == old(store.issues)[issueId - 1 := StatusSet(old(store.issues)[issueId - 1], status, now)]
    {
      FindIssueByPosition(store.issues, issueId);
      var issue := store.GetIssueById(issueId);
      if issue.None? || user.None? || user.value.role != Admin {
        return false;
      }
      var _ := store.UpdateIssueStatus(user, issue.value.id, status, now);
      called := true;
    }

    /** Rates the issue, for a signed-in user and a resolved issue only. */
    method HandleRating(user: Option<User>, rating: int, now: Time) returns (called: bool)
      requires Valid()
      modifies store
      ensures Valid()
      ensures called <==> old(Shown()) && user.Some? && old(store.issues)[issueId - 1].status == Resolved
      ensures store.comments == old(store.comments)
      ensures !called ==> store.issues == old(store.issues)
      ensures called ==>
        store.issues == old(store.issues)[issueId - 1 := Rated(old(store.issues)[issueId - 1], rating, now)]
    {
      FindIssueByPosition(store.issues, issueId);
      var issue := store.GetIssueById(issueId);
      if issue.None? || user.None? || issue.value.status != Resolved {
        return false;
      }
      var _ := store.RateIssue(user, issue.value.id, rating, now);
      called := true;
    }
  }
}
