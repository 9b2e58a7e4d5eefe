# Campus Issue Resolver: a Dafny model

The Campus Issue Resolver is a single-page app. Students report campus issues, vote on them and comment. Administrators respond, change the status and assign the issues. All state lives in two in-memory stores:

- the **issue/comment store**: two insertion-ordered sequences and seven permission-gated mutators;
- the **identity store**: a user directory, the signed-in user and the browser slot that remembers that user.

The pages compute views over the store: search, filter, sort, tabs, counts and the comment order. A few components hold small state machines: the filter bar and the star-rating widget.

The model has one module per source file:

| Dafny file | module | models |
|---|---|---|
| `types.dfy` | `Types` | `src/types/index.ts`: the enumerations with their string literals, `User`, `Issue`, `Comment`, and the error kinds of both stores |
| `issue_context.dfy` | `IssueContext` | `src/contexts/IssueContext.tsx`: class `IssueStore` |
| `auth_context.dfy` | `AuthContext` | `src/contexts/AuthContext.tsx`: class `AuthStore` |
| `issues_page.dfy` | `IssuesPage` | the search/filter/sort pipeline of `src/pages/IssuesPage.tsx` |
| `issue_detail_page.dfy` | `IssueDetailPage` | the comment order, and class `IssueDetail` with the page's handlers |
| `dashboard.dfy` | `Dashboard` | `src/pages/Dashboard.tsx` |
| `admin_page.dfy` | `AdminPage` | `src/pages/AdminPage.tsx` |
| `profile_page.dfy` | `ProfilePage` | `src/pages/ProfilePage.tsx` |
| `issue_filter.dfy` | `IssueFilter` | class `IssueFilterBar` for `src/components/IssueFilter.tsx` |
| `issue_badge.dfy` | `IssueBadge` | `src/components/IssueBadge.tsx` |
| `star_rating.dfy` | `StarRating` | class `StarWidget` for `src/components/StarRating.tsx` |
| `seqs.dfy`, `sorting.dfy`, `jsstring.dfy` | `Seqs`, `Sorting`, `JsString` | the JavaScript built-ins the pages call |

The built-ins are modelled as follows:
- `filter`, `slice(0, n)` and `find` have their usual meaning.
- `sort` with a comparator is a stable sort. The comparator is given as "may stay in front of", which is the same as `cmp(a, b) <= 0`.
- The string built-ins are `toLowerCase`, `includes`, `trim`, `split` and `join`.

Modelling choices:
- **Stores are classes.** Each mutator is a method that reassigns the store's sequence fields. The signed-in user (`user: Option<User>`) and the clock (`now`) are parameters. A thrown error becomes `Err`/`Failed`, and the store is then left unchanged.
- **Ids are numbers.** Every id the source creates is `(length + 1).toString()`, and nothing is ever deleted. So the ids in a store are exactly `1..n` in order; this is the invariant `Valid()`. A route id that is not the decimal form of a number in `1..n` finds nothing in the source. In the model, a number outside `1..n` finds nothing.
- **Point updates.** A mutator that rewrites "every record whose id matches" is modelled exactly as the source's `map`. Under `Valid()` this is proved to rewrite the one record at position `id - 1` and nothing else.
- **The pages are functions** over the store's sequences. The page handlers are methods of a class that holds a reference to the store.

The model follows the code as written:
- `rateIssue` and `rateComment` overwrite an existing rating. No first rating is final. The store checks neither the status nor `isResponse`, and it does not check the range 1..5.
- `assignIssue` ignores its `userId` argument. It always assigns the built-in administrator and sets the status to in progress.
- `addComment` does not check that the issue exists.
- A timestamp is whatever clock value the caller passes. Nothing makes `updatedAt >= createdAt`.
- `login` accepts only the password `password`. A user registered with the password `pw` therefore cannot sign in with `pw` (`AuthContext.DemoAccounts`).

## Model

| member | source | states |
|---|---|---|
| Types.ParseStatus | src/types/index.ts:12 | a string is a status exactly when it is `open`, `in-progress` or `resolved`, and then it names exactly one status |
| Types.ParsePriority | src/types/index.ts:13 | a string is a priority exactly when it is `low`, `medium` or `high`, and then it names exactly one priority |
| Types.ParseCategory | src/types/index.ts:14 | a string is a category exactly when it is one of the four category literals, and it names exactly one category |
| Types.ParseRole | src/types/index.ts:2 | a role is exactly `student` or `admin` |
| Types.EnumerationSizes | src/types/index.ts:2-14 | statuses, priorities, categories and roles have exactly 3, 3, 4 and 2 distinct literals |
| IssueContext.Voted | src/contexts/IssueContext.tsx:263-273 | an up-vote adds one; taking a vote back subtracts one from a positive count and leaves a count of zero or less at exactly zero; votes that start at zero or more stay at zero or more; `updatedAt` becomes the clock value and every other field is unchanged |
| IssueContext.Responded | src/contexts/IssueContext.tsx:232-240 | a response moves an open issue to in progress and changes nothing but status and `updatedAt`; an issue in progress or resolved is left exactly as it was |
| IssueContext.UpdateByIdIsPointUpdate | src/contexts/IssueContext.tsx:195-201 | with ids 1..n and an update that keeps the id, the id-matching `map` (`UpdateById`, used for issues and, at lines 315-321, for comments) rewrites only the record at position id - 1, nothing when the id is out of range, and keeps the ids 1..n |
| IssueContext.NewIssueIdIsFresh | src/contexts/IssueContext.tsx:163 | the id `length + 1` of a new issue belongs to no existing issue, and appending it keeps the ids 1..n |
| IssueContext.NewCommentIdIsFresh | src/contexts/IssueContext.tsx:221 | the id `length + 1` of a new comment belongs to no existing comment, and appending it keeps the ids 1..n |
| IssueContext.FindIssue | src/contexts/IssueContext.tsx:364-366 | `getIssueById` finds nothing exactly when no issue has the id, and otherwise finds the first issue with that id |
| IssueContext.FindIssueByPosition | src/contexts/IssueContext.tsx:364-366 | with ids 1..n, looking up id k finds the issue at position k - 1, and nothing outside 1..n |
| IssueContext.CommentsOf | src/contexts/IssueContext.tsx:368-370 | `getCommentsByIssueId(x)` holds exactly the comments whose `issueId` is x, each as often as in the store, in insertion order |
| IssueContext.CommentsOfAppend | src/contexts/IssueContext.tsx:211-231 | a newly added comment appears last among its own issue's comments, and the other issues' comment lists do not change |
| IssueContext.IssueStore.constructor | src/contexts/IssueContext.tsx:43-123 | the store starts with the three fixture issues and four fixture comments, with ids 1..n |
| IssueContext.IssueStore.AddIssue | src/contexts/IssueContext.tsx:149-184 | without a user it fails and changes nothing; otherwise it appends one open issue with no votes, created by the user, with the given fields and the fresh id `length + 1`; earlier issues and all comments are untouched |
| IssueContext.IssueStore.UpdateIssueStatus | src/contexts/IssueContext.tsx:186-209 | fails unchanged without a user (not authenticated) or for a non-administrator (forbidden); otherwise sets status and `updatedAt` of the matching issue only |
| IssueContext.IssueStore.AddComment | src/contexts/IssueContext.tsx:211-253 | fails unchanged without a user, or for a response by a non-administrator; otherwise appends the comment with id `length + 1`; a response also moves an open target issue to in progress, and any other comment leaves the issues alone |
| IssueContext.IssueStore.VoteIssue | src/contexts/IssueContext.tsx:255-281 | fails unchanged without a user; otherwise applies `Voted` to the matching issue only, and votes stay at zero or more |
| IssueContext.IssueStore.RateIssue | src/contexts/IssueContext.tsx:283-305 | fails unchanged without a user; otherwise overwrites the rating of the matching issue, whatever its status |
| IssueContext.IssueStore.RateComment | src/contexts/IssueContext.tsx:307-329 | fails unchanged without a user; otherwise overwrites the rating of the matching comment, response or not; the issues are untouched |
| IssueContext.IssueStore.AssignIssue | src/contexts/IssueContext.tsx:331-362 | fails unchanged without a user or for a non-administrator; otherwise assigns the built-in administrator, whatever `userId` says, and sets the status to in progress |
| AuthContext.FindByEmail | src/contexts/AuthContext.tsx:53 | finds nothing exactly when no directory entry has the email, and otherwise finds the first one |
| AuthContext.LoginResult | src/contexts/AuthContext.tsx:53-61 | login succeeds exactly when some directory entry has the email and the password is `password`; it then yields that entry, and otherwise fails with invalid credentials |
| AuthContext.RegisterResult | src/contexts/AuthContext.tsx:77-88 | fails with "user exists" exactly when the email is in the directory; otherwise yields the user with id `length + 1`, the given name, email and role, and the avatar URL seeded with the name |
| AuthContext.RegisterKeepsDirectoryWellFormed | src/contexts/AuthContext.tsx:77-91 | a successful registration keeps the directory's emails unique and its ids 1..n |
| AuthContext.RegisteredUserLogsInWithDemoPasswordOnly | src/contexts/AuthContext.tsx:70-93 | the registration password is not kept: a newly registered user signs in with `password` and with nothing else |
| AuthContext.SecondRegistrationFails | src/contexts/AuthContext.tsx:77-91 | after a successful registration, registering the same email again fails with "user exists" |
| AuthContext.DemoAccounts | src/contexts/AuthContext.tsx:17-93 | the student account signs in with `password` but not with `wrong`; a student registered as Jane signs in with `password` but not with `pw` |
| AuthContext.AuthStore.constructor | src/contexts/AuthContext.tsx:38-45 | the directory starts with the two demo users, and the signed-in user is whatever the browser slot held |
| AuthContext.AuthStore.Login | src/contexts/AuthContext.tsx:47-68 | the answer is `LoginResult`; on success the user and the slot become the directory entry; on failure both stay as they were; the directory never changes |
| AuthContext.AuthStore.Register | src/contexts/AuthContext.tsx:70-102 | the answer is `RegisterResult`; on success the user is appended and becomes the signed-in user and the slot; on failure nothing changes |
| AuthContext.AuthStore.Logout | src/contexts/AuthContext.tsx:104-108 | clears the signed-in user and the slot and leaves the directory alone |
| IssueFilter.FilterChangeOnCleanMap | src/components/IssueFilter.tsx:28-36 | on a map without `undefined` entries, a defined value sets the key, `undefined` removes it, and no other key changes |
| IssueFilter.IssueFilterBar.constructor | src/components/IssueFilter.tsx:26 | the filter map starts empty |
| IssueFilter.IssueFilterBar.HandleFilterChange | src/components/IssueFilter.tsx:28-40 | the new state is the old map with the key set and every `undefined` entry deleted (the deletion loop is proved), and the callback receives that same map |
| IssueFilter.IssueFilterBar.ClearFilters | src/components/IssueFilter.tsx:42-45 | state and report are both the empty map |
| IssuesPage.PrecedesIsTotalPreorder | src/pages/IssuesPage.tsx:39-52 | each of the four comparators is a consistent total order, so the sort is well defined |
| IssuesPage.ActiveFilter | src/pages/IssuesPage.tsx:28-36 | a filter applies only when its value is present and not the empty string |
| IssuesPage.ApplyFilterIsFilter | src/pages/IssuesPage.tsx:28-36 | one filter stage keeps, in store order, exactly the issues that pass it; an inactive filter keeps them all |
| IssuesPage.SelectionIsOneFilter | src/pages/IssuesPage.tsx:20-36 | the search and the three filters in a row (`Selection`) keep exactly the issues that pass all four tests, in store order |
| IssuesPage.FilteredIssuesAreTheSelected | src/pages/IssuesPage.tsx:20-53 | the page's list `FilteredIssues` is a permutation of the issues whose lower-cased title or description contains the lower-cased query and whose status, priority and category equal each active filter value |
| IssuesPage.FilteredIssuesAreOrdered | src/pages/IssuesPage.tsx:39-52 | in `FilteredIssues`, newest and oldest give non-increasing and non-decreasing `createdAt`; most and least voted give non-increasing and non-decreasing votes |
| IssuesPage.FilteredIssuesKeepTiesInOrder | src/pages/IssuesPage.tsx:20-52 | the selected issues that have the same sort key appear in `FilteredIssues` in the same relative order as in the store |
| IssuesPage.EmptyQueryMatches | src/pages/IssuesPage.tsx:22-25 | an empty query matches every issue |
| IssuesPage.NoQueryNoFiltersListsEverything | src/pages/IssuesPage.tsx:22-36 | with no query and no filter, the list is a permutation of all issues |
| IssuesPage.LeastVotedIsMostVotedReversed | src/pages/IssuesPage.tsx:45-48 | when no two issues have the same votes, the least-voted order is the most-voted order reversed |
| IssueDetailPage.ResponseFirstIsTotalPreorder | src/pages/IssueDetailPage.tsx:124-131 | the comment comparator is a consistent total order |
| IssueDetailPage.SortedCommentsProperties | src/pages/IssueDetailPage.tsx:124-131 | the sorted comments `SortedComments` are a permutation of the issue's comments; every response precedes every non-response; within each kind `createdAt` does not increase |
| IssueDetailPage.RatingLocksWidget | src/pages/IssueDetailPage.tsx:289 | once an issue is rated with a non-zero value its widget is read-only; a rating of 0 leaves it editable for a signed-in user |
| IssueDetailPage.IssueDetail.constructor | src/pages/IssueDetailPage.tsx:39 | the comment draft starts empty |
| IssueDetailPage.IssueDetail.UpdateDraft | src/pages/IssueDetailPage.tsx:201 | typing replaces the draft |
| IssueDetailPage.IssueDetail.HandleVote | src/pages/IssueDetailPage.tsx:56-62 | votes up the shown issue exactly when a user is signed in; otherwise the store is unchanged |
| IssueDetailPage.IssueDetail.HandleCommentSubmit | src/pages/IssueDetailPage.tsx:64-86 | without a user, or with a draft that is blank after trimming, nothing is called and nothing changes; otherwise the draft is stored as a comment that is a response exactly when the user is an administrator, and the draft is cleared |
| IssueDetailPage.IssueDetail.HandleStatusChange | src/pages/IssueDetailPage.tsx:88-103 | the status changes exactly when an administrator is signed in |
| IssueDetailPage.IssueDetail.HandleRating | src/pages/IssueDetailPage.tsx:105-121 | the issue is rated exactly when a user is signed in and the issue is resolved |
| Dashboard.DashboardOf | src/pages/Dashboard.tsx:22-24 | nothing is rendered without a signed-in user |
| Dashboard.AdminList | src/pages/Dashboard.tsx:28-29 | an administrator's list (`RoleList`) is the first six unresolved issues: a prefix of the unresolved issues in store order, of length six or the number of unresolved issues when that is smaller, none resolved, shorter only when it holds every unresolved issue, and, in a store without repeated issues, no unresolved issue in front of a listed one is left out |
| Dashboard.StudentList | src/pages/Dashboard.tsx:30 | a student's list (`RoleList`) is the first six issues the student created: a prefix of them in store order, of length six or their number when that is smaller, shorter only when it holds all of them, and, in a store without repeated issues, none of the student's issues in front of a listed one is left out |
| Dashboard.RecentIssuesAreTheNewest | src/pages/Dashboard.tsx:32-34 | the recent list `RecentIssues` has six issues (all of them if there are fewer), each at most as often as in the store, newest first, and no issue left out is newer than a listed one |
| Dashboard.RecentIssuesKeepTiesInOrder | src/pages/Dashboard.tsx:32-34 | among issues created at the same time, `RecentIssues` holds the ones that come first in the store, in store order |
| Dashboard.CountsAddUp | src/pages/Dashboard.tsx:51-62 | the resolved and the open count add up to the total |
| AdminPage.AdminPageOf | src/pages/AdminPage.tsx:46-48 | something is rendered exactly when an administrator is signed in |
| AdminPage.AllTabListsEverything | src/pages/AdminPage.tsx:51-58 | in `TabIssues`, the `all` tab, and any tab name the page does not know, list the issues unchanged |
| AdminPage.StatusTabListsThatStatus | src/pages/AdminPage.tsx:53-58 | in `TabIssues`, a status tab lists exactly the issues with that status, in store order |
| AdminPage.CountsAddUp | src/pages/AdminPage.tsx:64-66 | open, in-progress and resolved counts add up to the number of issues |
| ProfilePage.ProfileOf | src/pages/ProfilePage.tsx:25-27 | nothing is rendered without a signed-in user |
| ProfilePage.OwnIssuesSplit | src/pages/ProfilePage.tsx:30-32 | the user's issues (`OwnIssues`) are exactly those they created, in store order; the resolved and the pending ones split them |
| ProfilePage.ShownIssues | src/pages/ProfilePage.tsx:88-103 | the first four of the user's issues are shown (all of them when there are fewer); the empty-state card appears exactly when there are none; "View All" appears exactly when the user has more than four issues |
| IssueBadge.BadgeClasses | src/components/IssueBadge.tsx:12-52 | a value gets a class exactly when it is a literal of the badge's kind, and then the class of that value |
| IssueBadge.StatusClassesDistinct | src/components/IssueBadge.tsx:12-21 | `StatusClasses` gives the three statuses three different classes |
| IssueBadge.OthersLooksLikeLow | src/components/IssueBadge.tsx:23-45 | category `others` has the class of priority `low`, and no other category does |
| IssueBadge.FormatValuePointwise | src/components/IssueBadge.tsx:54-57 | the label `FormatValue` has the value's length; each `-` becomes a space; the first character of each piece is upper-cased; all else is unchanged |
| IssueBadge.FormatValueHasNoHyphen | src/components/IssueBadge.tsx:54-57 | a label contains no `-` |
| IssueBadge.FormatValueKeepsWordCount | src/components/IssueBadge.tsx:54-57 | for a value without spaces, the label has as many space-separated words as the value has `-`-separated pieces |
| IssueBadge.FormatTwoPieces | src/components/IssueBadge.tsx:54-57 | a value `a-b` whose pieces hold no `-` is labelled as the two pieces capitalized, joined by one space |
| IssueBadge.FormatInProgress | src/components/IssueBadge.tsx:54-57 | `in-progress` is shown as `In Progress` |
| StarRating.FilledStarsAreALeftRun | src/components/StarRating.tsx:43-55 | the filled stars are the leftmost ones, as many as the hover rating (or the rating when the hover rating is 0), cut to 0..5 |
| StarRating.StarWidget.constructor | src/components/StarRating.tsx:13-20 | the rating starts at the given one (0 when none is given) and the hover rating at 0 |
| StarRating.StarWidget.HandleClick | src/components/StarRating.tsx:22-29 | read-only: nothing changes and nothing is reported; otherwise the rating becomes the clicked star and is reported when a callback is given |
| StarRating.StarWidget.HandleMouseEnter | src/components/StarRating.tsx:31-34 | outside read-only mode the hover rating becomes the hovered star; the rating never changes |
| StarRating.StarWidget.HandleMouseLeave | src/components/StarRating.tsx:36-39 | outside read-only mode the hover rating returns to 0 and the stars show the rating again |
| JsString.Includes | src/pages/IssuesPage.tsx:22-25 | `includes` holds exactly when the needle occurs at some position of the text |
| JsString.TrimEmptyIffBlank | src/pages/IssueDetailPage.tsx:71 | a draft trims to nothing exactly when every character is white space |
| Sorting.SortStable | src/pages/IssuesPage.tsx:39-52 | the sort keeps the input order of elements that compare equal |

## Left out

- Simulated latency (`setTimeout`), the `async` wrapping, the `isLoading`, `isSubmitting` and `isStatusUpdating` flags, and toast notifications: each operation is one sequential step.
- The initial `fetchData` effect and its window where the store is empty: the store starts seeded.
- The browser slot of the identity store is a field (`AuthStore.saved`). JSON serialisation is not modelled.
- Real `Date` values: timestamps are integer milliseconds, and the fixtures' dates are converted to them.
- Ids are numbers, not decimal strings: a lookup with a non-canonical string such as `01` is not modelled.
- Two mutations racing on stale `issues.length` or `comments.length` values: the model runs one mutation at a time.
- Rendering, routing, navigation, class names other than the badge classes, `IssueCard`, `CommentCard`, `NewIssuePage`, `IssueSort`, `Navbar` and the login and registration forms.
- `JsString.ToLower`: case mapping covers the ASCII letters only. The source's `toLowerCase` maps all of Unicode, and `charAt(0).toUpperCase()` in the badge label is modelled the same way.
- `StarRating.StarWidget.HandleMouseEnter`: the class name that marks hovered stars is not modelled; only the fill is.
- `IssuesPage.FilteredIssues`: the comparator's `default` branch is left out, because the sort order is one of the four literals. The comparison of `new Date(...).getTime()` values is a comparison of integers.
- `AdminPage.TabIssues`: the tab is the selector's string. Selecting a tab and the status change from the admin page's table are not modelled; the status change calls the same store method as the detail page.
- `IssueContext.IssueStore.GetIssueById` and `GetCommentsByIssueId` delegate to `FindIssue` and `CommentsOf`, which carry the contracts.
