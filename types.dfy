/** The shared data model of the issue tracker: roles, the three issue
    enumerations, users, issues and comments, plus the result wrappers the
    stores use in place of thrown errors. */
module Types {

  datatype Option<+T> = None | Some(value: T)

  /** The four ways an operation of the two stores can fail. */
  datatype AuthError = NotAuthenticated | Forbidden | InvalidCredentials | UserExists

  /** Result of a store operation that returns a value (a thrown error becomes Err). */
  datatype Result<+T> = Ok(value: T) | Err(error: AuthError)

  /** Result of a store operation that returns nothing. */
  datatype Outcome = Done | Failed(error: AuthError)

  datatype UserRole = Student | Admin

  datatype IssueStatus = Open | InProgress | Resolved

  datatype IssuePriority = Low | Medium | High

  datatype IssueCategory = Facilities | Academics | Administration | Others

  /** Ids are the decimal numbers the stores hand out, kept as numbers. */
  type Id = nat

  /** Timestamps in milliseconds since the epoch. */
  type Time = int

  datatype User = User(id: Id, name: string, email: string, role: UserRole, avatar: Option<string>)

  datatype Issue = Issue(
    id: Id,
    title: string,
    description: string,
    status: IssueStatus,
    priority: IssuePriority,
    category: IssueCategory,
    createdAt: Time,
    updatedAt: Time,
    createdBy: User,
    assignedTo: Option<User>,
    rating: Option<int>,
    votes: int)

  /** A comment names its issue only through the issue's id. */
  datatype Comment = Comment(
    id: Id,
    content: string,
    createdAt: Time,
    updatedAt: Time,
    author: User,
    issueId: Id,
    isResponse: bool,
    rating: Option<int>)

  // The status tests the pages filter and count with.

  predicate IsOpen(i: Issue) { i.status == Open }
  predicate IsInProgress(i: Issue) { i.status == InProgress }
  predicate IsResolved(i: Issue) { i.status == Resolved }
  predicate IsUnresolved(i: Issue) { i.status != Resolved }

  // The string literal each enumeration value stands for in the source.

  function RoleName(r: UserRole): string {
    match r
    case Student => "student"
    case Admin => "admin"
  }

  function StatusName(s: IssueStatus): string {
    match s
    case Open => "open"
    case InProgress => "in-progress"
    case Resolved => "resolved"
  }

  function PriorityName(p: IssuePriority): string {
    match p
    case Low => "low"
    case Medium => "medium"
    case High => "high"
  }

  function CategoryName(c: IssueCategory): string {
    match c
    case Facilities => "facilities"
    case Academics => "academics"
    case Administration => "administration"
    case Others => "others"
  }

  /** The literal types are closed: a string is a status exactly when it is
      one of the three names, and then it names exactly one status. */
  function ParseStatus(s: string): (r: Option<IssueStatus>)
    ensures r.Some? <==> s in {"open", "in-progress", "resolved"}
    ensures r.Some? ==> StatusName(r.value) == s
    ensures forall st :: StatusName(st) == s ==> r == Some(st)
  {
    if s == "open" then Some(Open)
    else if s == "in-progress" then Some(InProgress)
    else if s == "resolved" then Some(Resolved)
    else None
  }

  function ParsePriority(s: string): (r: Option<IssuePriority>)
    ensures r.Some? <==> s in {"low", "medium", "high"}
    ensures r.Some? ==> PriorityName(r.value) == s
    ensures forall p :: PriorityName(p) == s ==> r == Some(p)
  {
    if s == "low" then Some(Low)
    else if s == "medium" then Some(Medium)
    else if s == "high" then Some(High)
    else None
  }

  function ParseCategory(s: string): (r: Option<IssueCategory>)
    ensures r.Some? <==> s in {"facilities", "academics", "administration", "others"}
    ensures r.Some? ==> CategoryName(r.value) == s
    ensures forall c :: CategoryName(c) == s ==> r == Some(c)
  {
    if s == "facilities" then Some(Facilities)
    else if s == "academics" then Some(Academics)
    else if s == "administration" then Some(Administration)
    else if s == "others" then Some(Others)
    else None
  }

  function ParseRole(s: string): (r: Option<UserRole>)
    ensures r.Some? <==> s in {"student", "admin"}
    ensures r.Some? ==> RoleName(r.value) == s
    ensures forall x :: RoleName(x) == s ==> r == Some(x)
  {
    if s == "student" then Some(Student)
    else if s == "admin" then Some(Admin)
    else None
  }

  lemma StatusNamesCount()
    ensures |set s: IssueStatus | true :: StatusName(s)| == 3
  {
    var st := set s: IssueStatus | true :: StatusName(s);
    forall x | x in {"open", "in-progress", "resolved"} ensures x in st {
      assert StatusName(ParseStatus(x).value) == x;
    }
    assert st == {"open", "in-progress", "resolved"};
  }

  lemma PriorityNamesCount()
    ensures |set p: IssuePriority | true :: PriorityName(p)| == 3
  {
    var pr := set p: IssuePriority | true :: PriorityName(p);
    forall x | x in {"low", "medium", "high"} ensures x in pr {
      assert PriorityName(ParsePriority(x).value) == x;
    }
    assert pr == {"low", "medium", "high"};
  }

  lemma CategoryNamesCount()
    ensures |set c: IssueCategory | true :: CategoryName(c)| == 4
  {
    var ca := set c: IssueCategory | true :: CategoryName(c);
    forall x | x in {"facilities", "academics", "administration", "others"} ensures x in ca {
      assert CategoryName(ParseCategory(x).value) == x;
    }
    assert ca == {"facilities", "academics", "administration", "others"};
  }

  lemma RoleNamesCount()
    ensures |set r: UserRole | true :: RoleName(r)| == 2
  {
    var ro := set r: UserRole | true :: RoleName(r);
    forall x | x in {"student", "admin"} ensures x in ro {
      assert RoleName(ParseRole(x).value) == x;
    }
    assert ro == {"student", "admin"};
  }

  /** Each enumeration has exactly the listed number of values. */
  lemma EnumerationSizes()
    ensures |set s: IssueStatus | true :: StatusName(s)| == 3
    ensures |set p: IssuePriority | true :: PriorityName(p)| == 3
    ensures |set c: IssueCategory | true :: CategoryName(c)| == 4
    ensures |set r: UserRole | true :: RoleName(r)| == 2
  {
    StatusNamesCount();
    PriorityNamesCount();
    CategoryNamesCount();
    RoleNamesCount();
  }
}
