# GeeksHub course materials: verified model of the service layer and page logic

GeeksHub is a course-materials web application. Students browse a catalog
(major → year → semester → course → lecturer → material type), view and
request files, and earn reputation points when a moderator approves their
upload requests. The two front ends keep their state in in-memory mock
tables and React hooks. This project models that logic in Dafny and proves
what it promises:

- **File-request moderation store** (`RequestService`). A class holding the
  `fileRequests` list and the `pointsTransactions` ledger, with create, list,
  withdraw and approve. Approval marks one pending request and awards 10
  points at most once per request.
- **Reputation** (`ReputationService`). A user's total is the sum of their
  ledger entries, and the badge tier follows from that total by thresholds.
- **Recently viewed files, two variants.**
  - `FileService.RecentFilesStore.AddRecentFile` is an in-place
    move-to-front upsert.
  - `RecentFilesHook.AddRecentFile` is a functional update capped at
    twenty entries.
- **Pinned courses** (`PinnedCourses`). Toggling flips membership.
- **Query filters.**
  - Files (`FileService`) and courses (`CatalogService`) are filtered
    keeping their order.
  - The audit log (`AuditService`) is filtered, sorted newest first, then
    cut by an optional limit.
  - The moderation queue's search (`ModerationQueue`) ignores case.
- **Cascading hierarchy selector** (`CourseHierarchy`), shared by both
  course pages. Selecting a level keeps the earlier levels, sets that level
  and clears the later ones. The two page modules model how each page gates
  its selectors:
  - `CoursesLibraryPage` gates every selector after Major.
  - `CoursesBrowserPage` leaves Type ungated.
- **Navigation** (`AppShell`). Covers the breadcrumb trail built from the
  path, how segment labels are formatted, and the sidebar's active-link
  test.

Shared helpers:

- `Seqs`: filter, find, first index, subsequence.
- `Text`: ASCII lower/upper case, `startsWith`, `includes`, `split`, `join`.
- `Domain`: the record types.
- `Wrappers`: `Option`.

Conventions:

- Asynchronous calls are synchronous.
- Generated ids and the current time are parameters.
- Timestamps are integers.
- JavaScript truthiness is written out. An optional string filter takes
  effect only when it is present and non-empty (`Domain.Given`). A limit of 0
  is ignored.

## Model

| member | source | states |
|---|---|---|
| RequestService.TargetOf | geekshub-web/src/services/requestService.ts:127 | the index of the first request with the id; none exactly when no request has it |
| RequestService.NewRequest | geekshub-web/src/services/requestService.ts:89-100 | the request record built from the payload, a generated id and the creation time |
| RequestService.MarkApproved | geekshub-web/src/services/requestService.ts:161-164 | the four fields approval sets on the request |
| RequestService.Award | geekshub-web/src/services/requestService.ts:170-177 | the ledger entry approval records: 10 points to the request's owner, keyed by the request id |
| RequestService.Approval | geekshub-web/src/services/requestService.ts:156-180 | the requests and ledger after `approveRequest`; its meaning is stated by the ApproveNoOp, ApproveMarksRequest, ApproveLedger, ApproveAwardsAtMostOnce, ApprovePreservesAwardsUnique and ApproveIdempotent lemmas |
| RequestService.Withdrawn | geekshub-web/src/services/requestService.ts:125-132 | the request list after `withdrawRequest`; its meaning is stated by WithdrawnEffect |
| RequestService.AwardsFor | geekshub-web/src/services/requestService.ts:168 | the ledger entries whose `requestId` is the request's id, and only those |
| RequestService.MyRequests | geekshub-web/src/services/requestService.ts:113-116 | the user's requests, in list order, each as often as in the list (a subsequence, member iff owned by the user) |
| RequestService.PendingRequests | geekshub-web/src/services/requestService.ts:143-146 | the pending requests, in list order, each as often as in the list (a subsequence, member iff pending) |
| RequestService.ApproveNoOp | geekshub-web/src/services/requestService.ts:158-160 | approval changes neither requests nor ledger when no request has the id or it is not pending |
| RequestService.ApproveMarksRequest | geekshub-web/src/services/requestService.ts:158-164 | approving a pending request gives it status approved, reviewer `adminId`, review time `now` and 10 points, keeps every other field of it, and leaves every other request as it was |
| RequestService.ApproveLedger | geekshub-web/src/services/requestService.ts:166-178 | the ledger gains exactly one entry (10 points, to the request's owner, keyed by the request id) when a pending request with no prior award is approved, and is unchanged otherwise |
| RequestService.ApproveAwardsAtMostOnce | geekshub-web/src/services/requestService.ts:166-169 | after approval there is at most one award for the request if there was at most one before |
| RequestService.ApprovePreservesAwardsUnique | geekshub-web/src/services/requestService.ts:166-178 | approval keeps every request id at most once in the ledger |
| RequestService.ApproveIdempotent | geekshub-web/src/services/requestService.ts:158-178 | approving the same id again, by anyone at any time, leaves requests and ledger as after the first approval |
| RequestService.WithdrawnEffect | geekshub-web/src/services/requestService.ts:125-132 | withdrawal deletes the first request with the id exactly when the caller owns it, whatever its status, keeping the rest in order; otherwise nothing changes |
| RequestService.RequestStore.constructor | geekshub-web/src/mock/mock-db.ts:180-200 | the store starts from the seed requests and an empty ledger, which has no double awards |
| RequestService.RequestStore.CreateFileRequest | geekshub-web/src/services/requestService.ts:86-105 | appends exactly one pending request carrying the payload's user, course, lecturer, type, title and notes, the "Unknown Lecturer" name, the given id and time, and no uploader, review or rejection fields; earlier requests and the ledger are unchanged |
| RequestService.RequestStore.ListMyRequests | geekshub-web/src/services/requestService.ts:113-116 | the stored requests owned by the user, in order |
| RequestService.RequestStore.ListPendingRequests | geekshub-web/src/services/requestService.ts:143-146 | the stored pending requests, in order |
| RequestService.RequestStore.WithdrawRequest | geekshub-web/src/services/requestService.ts:125-132 | the new list is the withdrawal of the old one; the ledger is unchanged and keeps its no-double-award invariant |
| RequestService.RequestStore.ApproveRequest | geekshub-web/src/services/requestService.ts:156-180 | the new requests and ledger are the approval of the old ones, and the no-double-award invariant is kept |
| ReputationService.TransactionsOf | src/services/reputationService.ts:71 | exactly the user's ledger entries, in ledger order, each as often as in the ledger |
| ReputationService.SumAmounts | src/services/reputationService.ts:72 | the `reduce` that adds up the amounts; related to the reference sum by SumOfOwnTransactions |
| ReputationService.PointsOf | src/services/reputationService.ts:69-72 | reference definition of a user's total: the amounts of that user's entries over the whole ledger |
| ReputationService.BadgeFor | src/services/reputationService.ts:77 | the badge ternary: Gold above 1000, Silver above 500, Bronze otherwise; its tiers are stated by BadgeTiers and BadgeMonotone |
| ReputationService.SumAmountsCons | src/services/reputationService.ts:72 | the left fold of the amounts equals the first amount plus the fold of the rest |
| ReputationService.SumOfOwnTransactions | src/services/reputationService.ts:71-72 | the fold over the user's filtered entries equals the reference per-user sum over the whole ledger |
| ReputationService.PointsOfAppend | src/services/reputationService.ts:71-72 | appending an entry adds its amount to its owner's total and nothing to anyone else's |
| ReputationService.GetMyReputation | src/services/reputationService.ts:66-80 | echoes the user id; total is the sum of the user's amounts; transactions are exactly the user's, in ledger order; the badge is the tier of the total and never "Contributor" |
| ReputationService.BadgeTiers | src/services/reputationService.ts:77 | Gold iff total > 1000, Silver iff 500 < total ≤ 1000, Bronze iff total ≤ 500 (including 0), never Contributor |
| ReputationService.BadgeMonotone | src/services/reputationService.ts:77 | more points never earn a lower tier |
| ReputationService.ApprovalRaisesOwnerTotal | src/services/reputationService.ts:71-72 | an approval that adds an award raises the owner's total by 10 and no one else's; any other approval changes no total (both front ends are taken to share one ledger) |
| FileService.ListFiles | src/services/fileService.ts:101-114 | an order-preserving subsequence of the files; a file is kept iff it is in the course and of the type that are set, as often as it occurs; all files when neither is set |
| FileService.ListFilesIgnoresLecturer | src/services/fileService.ts:106-109 | the lecturer, major and search filters never change the listing |
| FileService.GetFile | src/services/fileService.ts:134-138 | the first file with the id, or none exactly when no file has it |
| FileService.EntryOf | src/services/fileService.ts:168-172 | the index of the first recent entry for the file id; none exactly when there is none |
| FileService.MoveToFront | src/services/fileService.ts:166-181 | the recent list after `addRecentFile`; its meaning is stated by MoveToFrontEffect and MoveToFrontKeepsDistinct |
| FileService.MoveToFrontEffect | src/services/fileService.ts:168-180 | after the upsert the file is first with the new view time; an unseen file grows the list by one and brings its own fields; a seen file keeps the length and its stored fields; the other entries keep their order |
| FileService.MoveToFrontKeepsDistinct | src/services/fileService.ts:168-180 | distinct ids before the upsert means distinct ids after |
| FileService.RecentFilesStore.constructor | geekshub-web/src/mock/mock-db.ts:192-206 | the session starts with no recent files and the given leaderboard |
| FileService.RecentFilesStore.ListRecentFiles | src/services/fileService.ts:155-158 | the recent list as it stands |
| FileService.RecentFilesStore.ListTopContributors | src/services/fileService.ts:145-148 | the constant leaderboard |
| FileService.RecentFilesStore.AddRecentFile | src/services/fileService.ts:166-181 | the new list is the move-to-front upsert of the old one, headed by the file with the new time, and stays duplicate-free |
| FileService.RecentFilesStore.ClearRecentFiles | src/services/fileService.ts:187-190 | the recent list becomes empty |
| RecentFilesHook.WithoutId | geekshub-web/src/hooks/useRecentFiles.ts:32 | the previous entries without the id, in order, each as often as before |
| RecentFilesHook.AddRecentFile | geekshub-web/src/hooks/useRecentFiles.ts:29-39 | at most 20 entries; length is min(20, 1 + entries with another id); the head is the file stamped now; the rest are the other entries in order, truncated; no later entry has the id |
| RecentFilesHook.ClearHistory | geekshub-web/src/hooks/useRecentFiles.ts:41-44 | the list becomes empty |
| RecentFilesHook.AddKeepsDistinct | geekshub-web/src/hooks/useRecentFiles.ts:32-34 | distinct ids before an update means distinct ids after it |
| RecentFilesHook.WithoutIdKeepsDistinct | geekshub-web/src/hooks/useRecentFiles.ts:32 | removing the entries with one id keeps the remaining ids distinct |
| RecentFilesHook.DropFreshEntry | geekshub-web/src/hooks/useRecentFiles.ts:32 | when the only entry with the id is at the front, the filter removes exactly that entry and keeps the rest in order |
| RecentFilesHook.ReAddRefreshes | geekshub-web/src/hooks/useRecentFiles.ts:29-39 | viewing the same file twice equals viewing it once at the later time |
| PinnedCourses.TogglePin | src/hooks/usePinnedCourses.ts:22-30 | the id is pinned afterwards iff it was not before; no other id's pinned state changes |
| PinnedCourses.IsPinned | src/hooks/usePinnedCourses.ts:30 | `pinnedIds.includes(courseId)` |
| PinnedCourses.ToggleShape | src/hooks/usePinnedCourses.ts:24-26 | an unpinned id is appended at the end; a pinned id loses every occurrence while every other id keeps its place in order and its number of occurrences |
| PinnedCourses.FilterShorter | src/hooks/usePinnedCourses.ts:25 | removing an id that occurs makes the list strictly shorter |
| PinnedCourses.ToggleTwiceRestores | src/hooks/usePinnedCourses.ts:24-26 | toggling an unpinned id twice restores the list exactly |
| PinnedCourses.ToggleKeepsDistinct | src/hooks/usePinnedCourses.ts:24-26 | a duplicate-free list stays duplicate-free |
| CatalogService.ListCourses | geekshub-web/src/services/catalogService.ts:95-103 | an order-preserving subsequence; every result has the given major and semester; every course matching the given filters is returned, as often as it occurs; all courses when neither filter is set |
| CatalogService.Matches | geekshub-web/src/services/catalogService.ts:98-102 | the filter callback: a set major or semester must match |
| CatalogService.ListCoursesIgnoresYear | geekshub-web/src/services/catalogService.ts:95-102 | the year filter never changes the listing |
| CatalogService.GetCourse | geekshub-web/src/services/catalogService.ts:110-113 | the first course with the id, or none exactly when no course has it |
| CatalogService.ListMajors | geekshub-web/src/services/catalogService.ts:64-67 | the whole majors table |
| CatalogService.ListYears | geekshub-web/src/services/catalogService.ts:74-78 | the whole years table, whatever the major |
| CatalogService.ListSemesters | geekshub-web/src/services/catalogService.ts:85-88 | the whole semesters table, whatever the major |
| CatalogService.ListLecturers | geekshub-web/src/services/catalogService.ts:120-123 | the whole lecturers table, whatever the course |
| AuditService.Insert | geekshub-web/src/services/auditService.ts:47 | one step of the newest-first sort: the entry goes before the first strictly older entry; stated by InsertMultiset, InsertSorted and InsertBeforeEqual |
| AuditService.InsertMultiset | geekshub-web/src/services/auditService.ts:47 | inserting into the sorted list adds exactly that entry |

| AuditService.InsertBounded | geekshub-web/src/services/auditService.ts:47 | insertion keeps every timestamp under a common bound |
| AuditService.InsertSorted | geekshub-web/src/services/auditService.ts:47 | insertion keeps a newest-first list newest first |
| AuditService.SortNewestFirstCorrect | geekshub-web/src/services/auditService.ts:47 | the sort yields a newest-first permutation of its input |
| AuditService.SortedFacts | geekshub-web/src/services/auditService.ts:47 | the sorted list is newest first, a permutation, of the same length and drawn from its input |
| AuditService.SortNewestFirst | geekshub-web/src/services/auditService.ts:46-47 | the comparator sort, newest first; stated by SortNewestFirstCorrect and SortIsStable |
| AuditService.NewestFirst | geekshub-web/src/services/auditService.ts:46-47 | timestamps never increase along the list |
| AuditService.AtTime | geekshub-web/src/services/auditService.ts:47 | the entries with one timestamp, in list order |
| AuditService.InsertBeforeEqual | geekshub-web/src/services/auditService.ts:47 | insertion puts the entry in front of every entry with the same timestamp |
| AuditService.SortIsStable | geekshub-web/src/services/auditService.ts:47 | the sort is stable: entries sharing a timestamp keep their input order |
| AuditService.ApplyLimit | geekshub-web/src/services/auditService.ts:50-52 | an absent or zero limit keeps everything; a positive one keeps the first `limit` entries; a negative one drops that many from the end |
| AuditService.Matching | geekshub-web/src/services/auditService.ts:39-44 | the two chained filters keep exactly the entries matching both set filters, in log order |
| AuditService.Matches | geekshub-web/src/services/auditService.ts:39-44 | an entry has the set action and the set actor |
| AuditService.ByAction | geekshub-web/src/services/auditService.ts:39-41 | the action filter, applied only when an action is set |
| AuditService.ByActor | geekshub-web/src/services/auditService.ts:42-44 | the actor filter, applied only when a non-empty actor is set |
| AuditService.MatchingIsOneFilter | geekshub-web/src/services/auditService.ts:39-44 | filtering by action then by actor equals one filter by their conjunction |
| AuditService.BothFilters | geekshub-web/src/services/auditService.ts:39-44 | with both filters set, the chained filters equal the conjunctive filter |
| AuditService.ListAuditLogs | geekshub-web/src/services/auditService.ts:34-55 | every result is a log entry matching the set filters; newest first; without a (non-zero) limit a permutation of all matching entries; with a positive limit min(limit, matching) entries |
| AuditService.PrefixFacts | geekshub-web/src/services/auditService.ts:50-52 | a prefix of a newest-first list is newest first and drawn from it |
| AuditService.LimitKeepsNewest | geekshub-web/src/services/auditService.ts:46-52 | with a positive limit the result is the leading part of the unlimited result and nothing left out is newer |
| CourseHierarchy.Index | geekshub-web/src/components/pages/Courses.tsx:19-26 | every key has a position among the six |
| CourseHierarchy.Selected | geekshub-web/src/components/pages/Courses.tsx:34-45 | the chosen level is set, earlier levels are unchanged, every later level is cleared |
| CourseHierarchy.HandleSelect | geekshub-web/src/components/pages/Courses.tsx:34-45 | the copy-then-clear loop produces exactly the selected state |
| CourseHierarchy.IsStepEnabled | geekshub-web/src/components/pages/Courses.tsx:28-32 | the first step always, any other once the previous level is set |
| CourseHierarchy.Browse | geekshub-web/src/components/pages/Courses.tsx:34-45 | the state reached by a run of picks from the empty page, a pick on a disabled selector having no effect |
| CourseHierarchy.SelectKeepsPrefix | geekshub-web/src/components/pages/Courses.tsx:28-45 | selecting through an enabled step keeps the set levels a prefix of the key order |
| CourseHierarchy.SelectAgainOverrides | src/components/pages/Courses.tsx:59-70 | selecting the same level twice equals selecting it once with the second value |
| CoursesLibraryPage.BrowseIsPrefixShaped | geekshub-web/src/components/pages/Courses.tsx:73-123 | whatever the user picks, the set levels form a prefix of major, year, semester, course, lecturer, type |
| CoursesLibraryPage.SelectorEnabled | geekshub-web/src/components/pages/Courses.tsx:73-123 | every selector after Major is enabled only by its step rule |
| CoursesLibraryPage.IsFullySelected | geekshub-web/src/components/pages/Courses.tsx:47 | every one of the six levels is set |
| CoursesLibraryPage.FullySelectedIsTypeSet | geekshub-web/src/components/pages/Courses.tsx:47 | in every reachable state the results panel shows exactly when the type is set |
| CoursesLibraryPage.FullySelectedEnablesAll | geekshub-web/src/components/pages/Courses.tsx:28-47 | when all six levels are set every selector is enabled |
| CoursesBrowserPage.RequestModalType | src/components/pages/Courses.tsx:99 | the modal's type is never empty, and it is the selected type when one is set |
| CoursesBrowserPage.SelectorEnabled | src/components/pages/Courses.tsx:111-186 | Year to Lecturer are enabled by the step rule; Major and Type always |
| CoursesBrowserPage.ShowsFiles | src/components/pages/Courses.tsx:44 | the files panel shows once a course is set |
| CoursesBrowserPage.SelectTypeClearsNothing | src/components/pages/Courses.tsx:59-70 | selecting the type, the last key, changes only the type |
| CoursesBrowserPage.TypeWithoutMajor | src/components/pages/Courses.tsx:186 | the ungated Type selector reaches a state with a type and no major, which breaks the prefix shape |
| CoursesBrowserPage.ReselectAboveCourseHidesFiles | src/components/pages/Courses.tsx:44-70 | re-selecting any level above the course hides the files panel |
| CoursesBrowserPage.BrowseGatedLevelsArePrefix | src/components/pages/Courses.tsx:111-186 | whatever the user picks, the set levels among major to lecturer form a prefix |
| ModerationQueue.FilteredData | src/components/pages/admin/ModerationQueue.tsx:55-64 | no rows before the requests load; all requests for an empty search; otherwise an order-preserving subsequence keeping a request, as often as it occurs, iff the lower-cased query occurs in its lower-cased title, uploader name or course id |
| ModerationQueue.MatchesQuery | src/components/pages/admin/ModerationQueue.tsx:59-62 | the search callback: the query occurs in the lower-cased title, uploader name when present, or course id |
| ModerationQueue.CaseInsensitive | src/components/pages/admin/ModerationQueue.tsx:58-62 | queries that lower-case alike give the same rows |
| ModerationQueue.LowerQuerySameRows | src/components/pages/admin/ModerationQueue.tsx:58 | the lower-cased query gives the same rows as the query itself |
| ModerationQueue.AnonymousMatchesTitleOrCourse | src/components/pages/admin/ModerationQueue.tsx:59-62 | a request without an uploader name is found iff the query occurs in its title or course id |
| AppShell.Segments | geekshub-web/src/components/layout/AppShell.tsx:33 | exactly the non-empty pieces of the split, in order and with their multiplicity; none contains `/` |
| AppShell.Capitalize | geekshub-web/src/components/layout/AppShell.tsx:40 | same length; only the first character is upper-cased |
| AppShell.FormatLabel | geekshub-web/src/components/layout/AppShell.tsx:35-41 | same length; course-code segments have no lower-case letter left; other segments start with a non-lower-case character and keep the rest |
| AppShell.FormatLabelKeepsLetters | geekshub-web/src/components/layout/AppShell.tsx:35-41 | formatting changes letter case only |
| AppShell.IsCourseCode | geekshub-web/src/components/layout/AppShell.tsx:37 | segments starting with `cs`, `math` or `phys` |
| AppShell.Href | geekshub-web/src/components/layout/AppShell.tsx:57 | the crumb link: `/` followed by the segments up to this one joined by `/` |
| AppShell.Crumb | geekshub-web/src/components/layout/AppShell.tsx:58-70 | the crumb for one segment; stated by CrumbIsLink |
| AppShell.Interleave | geekshub-web/src/components/layout/AppShell.tsx:56-75 | each crumb followed by a separator unless it is the last; stated by InterleaveLayout |
| AppShell.Trail | geekshub-web/src/components/layout/AppShell.tsx:46-78 | the whole breadcrumb list; stated by TrailLayout |
| AppShell.Crumbs | geekshub-web/src/components/layout/AppShell.tsx:56-75 | one crumb per segment, in path order |
| AppShell.InterleaveLayout | geekshub-web/src/components/layout/AppShell.tsx:56-75 | crumb `i` sits at offset `2i`, with a separator between each two crumbs and none after the last |
| AppShell.TrailLayout | geekshub-web/src/components/layout/AppShell.tsx:46-78 | the trail has `2n + 1` items: Home, then a separator before each crumb, crumb `i` at `2i + 2` |
| AppShell.CrumbIsLink | geekshub-web/src/components/layout/AppShell.tsx:58-70 | a crumb is a link iff it is not the last and its segment is not "files"; page crumbs are muted iff "files"; the label is the formatted segment |
| AppShell.JoinSnoc | geekshub-web/src/components/layout/AppShell.tsx:57 | joining one more piece appends the separator and the piece |
| AppShell.HrefExtends | geekshub-web/src/components/layout/AppShell.tsx:57 | each crumb's href is the previous href plus `/` and its own segment |
| AppShell.CanonicalPath | geekshub-web/src/components/layout/AppShell.tsx:33-57 | a path written `/s1/…/sn` yields exactly those segments, and the last href is the path itself |
| AppShell.IsActive | geekshub-web/src/components/layout/AppShell.tsx:84-87 | `/` is active only on `/`; any other link on every path starting with it |
| AppShell.ActiveOnDeeperPaths | geekshub-web/src/components/layout/AppShell.tsx:84-87 | a link other than `/` stays active on every deeper path |
| AppShell.ActiveWithoutBoundary | geekshub-web/src/components/layout/AppShell.tsx:86 | the prefix test ignores segment boundaries: `/coursesX` makes `/courses` active |
| Text.Lower | src/components/pages/admin/ModerationQueue.tsx:58 | same length; each character is lower-cased (ASCII) |
| Text.Upper | geekshub-web/src/components/layout/AppShell.tsx:38 | same length; each character is upper-cased (ASCII) |
| Text.LowerIdempotent | src/components/pages/admin/ModerationQueue.tsx:58 | lower-casing twice equals lower-casing once |
| Text.Includes | src/components/pages/admin/ModerationQueue.tsx:60-62 | true iff the query occurs at some position of the string |
| Text.StartsWith | geekshub-web/src/components/layout/AppShell.tsx:37 | `startsWith`: the string begins with the prefix |
| Text.Join | geekshub-web/src/components/layout/AppShell.tsx:57 | `join`: the pieces with the separator between each two; stated by JoinSplit and SplitJoin |
| Text.Split | geekshub-web/src/components/layout/AppShell.tsx:33 | at least one piece, and no piece contains the separator |
| Text.JoinSplit | geekshub-web/src/components/layout/AppShell.tsx:33-57 | joining the pieces of a split gives back the string |
| Text.SplitJoin | geekshub-web/src/components/layout/AppShell.tsx:33-57 | splitting a join of separator-free pieces gives back the pieces |
| Text.SplitPiece | geekshub-web/src/components/layout/AppShell.tsx:33 | a string without the separator splits into itself |
| Seqs.Filter | geekshub-web/src/services/requestService.ts:115 | `Array.prototype.filter`: an order-preserving subsequence holding every element that satisfies the predicate as often as the input does, and no other |
| Seqs.FilterKeepsAll | src/services/fileService.ts:101-114 | a filter every element passes returns the sequence |
| Seqs.FilterCongruent | geekshub-web/src/services/catalogService.ts:98-102 | predicates agreeing on the elements filter alike |
| Seqs.FilterFilter | geekshub-web/src/services/auditService.ts:39-44 | two filters in a row equal one filter by the conjunction |
| Seqs.FilterAppend | src/hooks/usePinnedCourses.ts:25-26 | filtering distributes over concatenation |
| Seqs.FilterKeepsDistinct | src/hooks/usePinnedCourses.ts:25 | filtering a duplicate-free list leaves it duplicate-free |
| Seqs.FirstIndex | geekshub-web/src/services/requestService.ts:127 | `findIndex`: the first satisfying index, none iff no element satisfies |
| Seqs.Find | geekshub-web/src/services/requestService.ts:158 | `find`: the element at the first satisfying index, none iff no element satisfies |
| Seqs.RemoveAt | geekshub-web/src/services/requestService.ts:130 | `splice(i, 1)`: one element shorter, earlier elements kept, later ones shifted down by one |

## Left out

- Latency (`randomDelay`) and asynchrony are not modelled. Every service call is one synchronous step.
- Generated ids (`Math.random()`) and the clock (`new Date()`) are parameters. Timestamps are integers, so parsing ISO date strings is not modelled.
- Local-storage persistence in the recent-files and pinned-courses hooks is not modelled, including loading and parse errors. Only the state updaters are.
- The React component tree, TanStack Query caching and invalidation, and the JSX rendering are not modelled. The breadcrumb trail is an item list, not markup.
- The query loading flags that also disable the course browser's selectors are not modelled. Only the step gating is.
- Reject, bulk approve/reject, undo and the audit-log writes are not part of this model. Neither are the Python backend, authentication, or the PDF viewer.
- Character case mapping covers ASCII letters only. JavaScript's full Unicode `toLowerCase`/`toUpperCase` is not modelled.
- Point amounts and the audit limit are integers, not JavaScript floating-point numbers.
- AuditService.ListAuditLogs: the in-place `sort` of a local copy is a pure stable insertion sort. The contract does not state the result for a negative limit; that case is stated by AuditService.ApplyLimit.
- Aliasing between a service's return value and its table is not modelled. Lists are values, so a caller can never mutate `recentFiles` through what `listRecentFiles` returns, and approving cannot change a request object the caller still holds.
- ReputationService.ApprovalRaisesOwnerTotal: the geekshub-web request service and the src reputation service are taken to share one points ledger. The src front end's own request service is not part of this model.
- RequestService.RequestStore.ApproveRequest and RequestService.RequestStore.WithdrawRequest require the store's no-double-award invariant. Callers that follow the store's own operations always meet it.
- CourseHierarchy.Index: the selection key is an enumeration, so `keys.indexOf` on an unknown key (-1, which resets every level) is not modelled.
- FileService.ListFiles: the `search` and `majorId` filters are accepted and, as in the source, have no effect.
