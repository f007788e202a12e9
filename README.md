# Assignment portal: submission store and page rules

This project models the core of a small assignment portal, written as a Next.js application:

- Instructors publish assignments with a deadline.
- Students submit a URL for an assignment and may resubmit after a rejection.
- Instructors review each submission, setting a status (pending, accepted, rejected) and optional feedback.

The model covers these parts:

- **The data provider.** Two collections, assignments and submissions, are replaced by three mutators. Three filter queries read them. At mount the provider loads either the saved collections or a seed set. This is the class `DataContext.DataProvider`.
- **The assignment list** a student sees:
  - the deadline classes (overdue, urgent, soon, plenty);
  - the listing order;
  - the Submit and Resubmit buttons;
  - the submitted and pending figures.
- **The submission form:**
  - which assignments it offers;
  - whether the selection is a resubmission;
  - the record it hands the store;
  - the form state around a submit (class `SubmitPage.SubmitForm`).
- **The instructor's review page:**
  - scoping to the instructor's own assignments;
  - search and two filters;
  - newest-first order and the status figures;
  - the review dialog that writes status and feedback back (class `SubmissionsPage.ReviewDialog`).
- **The student's submission history:**
  - order and figures;
  - which cards render;
  - the feedback panel and the Resubmit link.

Timestamps are integer milliseconds. The current time and freshly generated ids are parameters. JavaScript's `filter`, `find` and comparator `sort` are modelled generically in `Collections`. The string operations `toLowerCase`, `includes` and `trim` are modelled in `Text`, and the two `date-fns` differences in `DateFns`.

Modules, one file each:

| module | file |
|---|---|
| `Collections` | collections.dfy |
| `Text` | text.dfy |
| `DateFns` | date_fns.dfy |
| `Types` | types.dfy |
| `DataContext` | data_context.dfy |
| `AssignmentsPage` | assignments_page.dfy |
| `SubmitPage` | submit_page.dfy |
| `SubmissionsPage` | submissions_page.dfy |
| `MySubmissionsPage` | my_submissions_page.dfy |

Facts about the code that the model keeps as they are:

- Creating a submission does not check that the assignment exists, or that the student has not already submitted.
- Reviewing a submission id that is not stored changes nothing.
- Ids come from the clock, so they are not guaranteed unique.
- Nothing the store receives is validated.

## Model

| member | source | states |
|---|---|---|
| Types.ParseRole | src/types/index.ts:1 | a role name parses to the role whose name it is; it fails exactly on strings that name no role |
| Types.RoleNameRoundTrip | src/types/index.ts:1 | instructor and student survive name-then-parse |
| Types.ParseStatus | src/types/index.ts:25 | a status name parses to the status whose name it is; it fails exactly on strings that name none of the three |
| Types.StatusNameRoundTrip | src/types/index.ts:25 | pending, accepted and rejected survive name-then-parse |
| DataContext.NewAssignment | src/contexts/DataContext.tsx:153-156 | the new assignment is the draft's fields plus the generated id |
| DataContext.NewAssignmentRoundTrip | src/contexts/DataContext.tsx:153-156 | dropping the id of an assignment and re-adding it gives the same assignment back |
| DataContext.NewSubmission | src/contexts/DataContext.tsx:161-166 | the new submission carries the draft's fields with the given id, status pending and submission time now |
| DataContext.NewSubmissionIgnoresCarriedStatus | src/contexts/DataContext.tsx:161-166 | any status or submission time carried in the draft is overridden |
| DataContext.Merge | src/contexts/DataContext.tsx:173 | `{ ...submission, ...updates }`: each field comes from the update when it carries one and from the record otherwise; its properties are the four Merge lemmas below |
| DataContext.MergeOverwritesPresentFields | src/contexts/DataContext.tsx:173 | every field the update carries replaces the record's value |
| DataContext.MergeKeepsAbsentFields | src/contexts/DataContext.tsx:173 | every field the update leaves out keeps its old value |
| DataContext.MergeEmptyPatch | src/contexts/DataContext.tsx:173 | merging an empty update changes nothing |
| DataContext.MergeIdempotent | src/contexts/DataContext.tsx:173 | merging the same update twice equals merging it once |
| DataContext.ApplyUpdate | src/contexts/DataContext.tsx:171-175 | length and order are kept; records with the id are merged; every other record is unchanged |
| DataContext.ApplyUpdateMissingId | src/contexts/DataContext.tsx:170-176 | an update to an id that no record has leaves the collection as it was |
| DataContext.ApplyUpdateIdempotent | src/contexts/DataContext.tsx:170-176 | applying the same update twice equals applying it once |
| DataContext.AssignmentById | src/app/my-submissions/page.tsx:58-60 | the first assignment with the id, and none exactly when no assignment has it |
| DataContext.AssignmentsByInstructor | src/contexts/DataContext.tsx:178-180 | exactly the assignments of that instructor, each as often as stored, as an order-preserving subsequence |
| DataContext.SubmissionsByStudent | src/contexts/DataContext.tsx:182-184 | exactly the submissions of that student, each as often as stored, as an order-preserving subsequence |
| DataContext.SubmissionsByAssignment | src/contexts/DataContext.tsx:186-188 | exactly the submissions to that assignment, each as often as stored, as an order-preserving subsequence |
| DataContext.SubmissionsByStudentAppend | src/contexts/DataContext.tsx:167 | appending a submission extends that student's view by it, or leaves the view unchanged when it belongs to another student |
| DataContext.SeedAssignmentIds | src/contexts/DataContext.tsx:19-55 | five seed assignments with ids "1" to "5" in order |
| DataContext.SeedSubmissionIds | src/contexts/DataContext.tsx:57-128 | six seed submissions with ids "1" to "6" and the assignment ids they name |
| DataContext.SeedAssignmentIdsDistinct | src/contexts/DataContext.tsx:19-55 | seed assignment ids are pairwise distinct |
| DataContext.SeedSubmissionIdsDistinct | src/contexts/DataContext.tsx:57-128 | seed submission ids are pairwise distinct |
| DataContext.SeedReferencesResolve | src/contexts/DataContext.tsx:19-128 | every seed submission names a seed assignment |
| DataContext.LoadOrSeed | src/contexts/DataContext.tsx:139-140 | the saved collection when there is one, otherwise the seed |
| DataContext.DataProvider.constructor | src/contexts/DataContext.tsx:131-132 | both collections start empty |
| DataContext.DataProvider.Load | src/contexts/DataContext.tsx:134-141 | each collection becomes its saved value if present, else its seed |
| DataContext.DataProvider.AddAssignment | src/contexts/DataContext.tsx:152-158 | exactly one new assignment is appended after the old ones; submissions are unchanged |
| DataContext.DataProvider.AddSubmission | src/contexts/DataContext.tsx:160-168 | exactly one new pending submission is appended, unconditionally; assignments are unchanged |
| DataContext.DataProvider.UpdateSubmission | src/contexts/DataContext.tsx:170-176 | submissions become the merge-by-id of the old ones; assignments are unchanged |
| DataContext.AddSubmissionMayLeaveDanglingReference | src/contexts/DataContext.tsx:160-168 | appending a submission that names an unknown assignment breaks the seed's reference consistency, so consistency is not a store invariant |
| AssignmentsPage.GetDeadlineStatus | src/app/assignments/page.tsx:32-62 | overdue iff now is strictly after the deadline; otherwise urgent under one day, soon from one to under four days, plenty from four days; the urgent hours lie in 0..23 and the soon days in 1..3; the hours or days carried are the whole hours or days left, rounded down, as the badge shows them |
| AssignmentsPage.DeadlineStatusOnlyAdvances | src/app/assignments/page.tsx:36-61 | for a fixed deadline, later times never give an earlier class in plenty → soon → urgent → overdue |
| AssignmentsPage.DeadlineStatusExamples | src/app/assignments/page.tsx:36-61 | on the first seed deadline: five days before is plenty; just under an hour before and the exact instant are urgent with 0 hours; one second after is overdue |
| AssignmentsPage.CompareAssignments | src/app/assignments/page.tsx:64-75 | the comparator: an overdue assignment sorts after a non-overdue one, otherwise by deadline; its properties are the next two lemmas |
| AssignmentsPage.CompareAssignmentsAntisymmetric | src/app/assignments/page.tsx:64-75 | swapping the arguments flips the sign, and an assignment compares equal to itself |
| AssignmentsPage.ListingOrderIsTotalPreorder | src/app/assignments/page.tsx:64-75 | the listing comparator is total and transitive, so the sort is well defined |
| AssignmentsPage.SortedAssignments | src/app/assignments/page.tsx:64-75 | a permutation of the assignments; every non-overdue one precedes every overdue one; deadlines ascend within each group |
| AssignmentsPage.SubmittedAssignmentIds | src/app/assignments/page.tsx:30 | an id is in the set iff one of the student's submissions names it |
| AssignmentsPage.FirstSubmissionFor | src/app/assignments/page.tsx:120 | the first of the student's submissions naming the assignment, and none exactly when no submission names it |
| AssignmentsPage.FirstSubmissionInStoreOrder | src/app/assignments/page.tsx:120 | the submission a card consults is the student's first stored submission for that assignment |
| AssignmentsPage.SubmittedIffFound | src/app/assignments/page.tsx:119-120 | the id set says submitted exactly when `find` finds a submission |
| AssignmentsPage.ShowSubmit | src/app/assignments/page.tsx:193-200 | Submit shows when the id is not among the submitted ids and the deadline status is not overdue; characterised by ButtonRules |
| AssignmentsPage.ShowResubmit | src/app/assignments/page.tsx:201-208 | Resubmit shows when the id is submitted, the found submission is rejected and the deadline status is not overdue; characterised by ButtonRules |
| AssignmentsPage.SubmissionBadge | src/app/assignments/page.tsx:150-158 | no badge exactly when nothing was submitted; "Accepted", "Rejected" or "Submitted" exactly when the found submission is accepted, rejected or pending |
| AssignmentsPage.ButtonRules | src/app/assignments/page.tsx:193-208 | Submit iff no submission and not overdue; Resubmit iff the found submission is rejected and not overdue; never both |
| AssignmentsPage.LaterSubmissionsDoNotChangeCard | src/app/assignments/page.tsx:193-208 | once a submission exists, more submissions change neither the consulted submission, the badge nor the buttons |
| AssignmentsPage.SubmittedCount | src/app/assignments/page.tsx:100 | the "Submitted" figure: the number of distinct assignment ids among the student's submissions |
| AssignmentsPage.SubmittedCountPositive | src/app/assignments/page.tsx:100 | the submitted figure is zero exactly when the student has no submissions |
| AssignmentsPage.PendingCountAsWritten | src/app/assignments/page.tsx:108-110 | the "Pending" figure as written: the assignment count minus the Submitted figure |
| AssignmentsPage.PendingCountAsWrittenCanBeNegative | src/app/assignments/page.tsx:108-110 | with one assignment and submissions to it and to an unknown id, the page's pending figure is -1 |
| AssignmentsPage.PendingCount | src/app/assignments/page.tsx:108-110 | the corrected "Pending" figure: the listed assignments whose id the student has not submitted to |
| AssignmentsPage.PendingCountBounds | src/app/assignments/page.tsx:108-110 | the intended pending figure is at most the total, and below it exactly when some listed assignment was submitted to |
| AssignmentsPage.PendingCountAgreesWhenReferencesResolve | src/app/assignments/page.tsx:108-110 | with distinct assignment ids and every submission naming a listed assignment, the page's figure equals the intended one |
| SubmitPage.AvailableAssignments | src/app/submit/page.tsx:53-59 | exactly the assignments not overdue whose first submission by the student is absent or rejected, in their order |
| SubmitPage.AvailableIffCardButton | src/app/submit/page.tsx:53-59 | the form offers an assignment exactly when its card on the assignment list shows Submit or Resubmit |
| SubmitPage.AvailabilityShrinksOverTime | src/app/submit/page.tsx:53-59 | an assignment offered at a later time was offered at every earlier one, so once overdue it stays out |
| SubmitPage.SettledSubmissionNeverAvailable | src/app/submit/page.tsx:55-58 | an assignment whose first submission is pending or accepted is never offered |
| SubmitPage.FirstSubmissionWithdrawsAssignment | src/app/submit/page.tsx:55-58 | after a first submission passes through the store, the assignment is no longer offered; while that submission is pending or accepted it stays withdrawn, whatever the student submits next (a later rejection by review offers it again) |
| SubmitPage.ResubmissionKeepsAssignmentAvailable | src/app/submit/page.tsx:55-58 | after a rejection, further submissions leave the assignment offered, because the first one is consulted |
| SubmitPage.OfferedResubmissionIffSubmitted | src/app/submit/page.tsx:61-63 | for an offered assignment, isResubmission holds exactly when the student already submitted to it |
| SubmitPage.IsResubmission | src/app/submit/page.tsx:61-63 | `isResubmission`: the submission found for the selection exists and is rejected; see OfferedResubmissionIffSubmitted |
| SubmitPage.SubmissionPayload | src/app/submit/page.tsx:74-81 | student id from the session; the note is absent iff empty; the title snapshot is the title of the first assignment with the selected id, and empty when no assignment has it |
| SubmitPage.SubmitGuard | src/app/submit/page.tsx:67 | the submit proceeds only with a selection, a URL and a signed-in user; see GuardIgnoresAvailability |
| SubmitPage.GuardIgnoresAvailability | src/app/submit/page.tsx:65-69 | an overdue, unoffered assignment selected through the query string passes the guard |
| SubmitPage.SuccessViewNeverSaysResubmitted | src/app/submit/page.tsx:109 | after the selection is cleared, `isResubmission` is false whenever no stored submission has an empty assignment id, so the title reads "Submitted Successfully!" |
| SubmitPage.SubmitForm.constructor | src/app/submit/page.tsx:21-27 | the form starts empty, not loading and not showing success |
| SubmitPage.SubmitForm.Preselect | src/app/submit/page.tsx:38-43 | a present, non-empty query value replaces the selection; anything else leaves every field as it was |
| SubmitPage.SubmitForm.SelectAssignment | src/app/submit/page.tsx:148 | sets the selection to the chosen id and nothing else |
| SubmitPage.SubmitForm.EditUrl | src/app/submit/page.tsx:219 | sets the URL only |
| SubmitPage.SubmitForm.EditNote | src/app/submit/page.tsx:234 | sets the note only |
| SubmitPage.SubmitForm.HandleSubmit | src/app/submit/page.tsx:65-96 | with no selection, URL or user nothing changes; otherwise exactly the payload is appended as a new pending submission and the form is cleared, success shown and loading off |
| SubmissionsPage.InstructorAssignmentIds | src/app/submissions/page.tsx:50-51 | an id is in the set iff an assignment of this instructor has it |
| SubmissionsPage.InstructorSubmissions | src/app/submissions/page.tsx:50-56 | exactly the submissions naming one of the instructor's assignments, each as often as stored, in stored order |
| SubmissionsPage.MatchesSearch | src/app/submissions/page.tsx:60-62 | the empty query matches; otherwise the lowered query occurs in the lowered name or title snapshot; see SearchIsSubstringMatch |
| SubmissionsPage.MatchesStatus | src/app/submissions/page.tsx:64 | "all" or the name of the record's status |
| SubmissionsPage.MatchesAssignment | src/app/submissions/page.tsx:65 | "all" or the record's assignment id |
| SubmissionsPage.FilteredSubmissions | src/app/submissions/page.tsx:59-68 | a subsequence keeping a record, as often as it is listed, iff search, status filter and assignment filter all match |
| SubmissionsPage.DefaultFiltersKeepEverything | src/app/submissions/page.tsx:60-65 | an empty query with both filters on "all" keeps every record |
| SubmissionsPage.SearchIsSubstringMatch | src/app/submissions/page.tsx:60-62 | a non-empty query matches iff its lowered form occurs in the lowered student name or assignment title |
| SubmissionsPage.SearchIgnoresQueryCase | src/app/submissions/page.tsx:60-62 | lowering the query first does not change what matches |
| SubmissionsPage.NoSnapshotsOnlyEmptySearch | src/app/submissions/page.tsx:60-62 | a record without student and assignment snapshots matches only the empty query |
| SubmissionsPage.NoOlderThan | src/app/submissions/page.tsx:71-73 | `a` may precede `b` when the comparator `b.submittedAt - a.submittedAt` is not positive; see NewestFirstIsTotalPreorder |
| SubmissionsPage.NewestFirstIsTotalPreorder | src/app/submissions/page.tsx:71-73 | the newest-first comparator is total and transitive |
| SubmissionsPage.SortNewestFirst | src/app/submissions/page.tsx:71-73 | a permutation of its input in non-increasing submission time |
| SubmissionsPage.CountStatus | src/app/submissions/page.tsx:119-121 | the length of the filter by one status |
| SubmissionsPage.StatusStats | src/app/submissions/page.tsx:117-122 | the total and the three per-status counts; see StatusStatsAddUp |
| SubmissionsPage.StatusStatsAddUp | src/app/submissions/page.tsx:117-122 | pending + accepted + rejected equals the total |
| SubmissionsPage.NormalizedFeedback | src/app/submissions/page.tsx:108 | `feedback.trim() \|\| undefined`; its properties are the three lemmas below |
| SubmissionsPage.BlankFeedbackDropped | src/app/submissions/page.tsx:108 | the normalized feedback is absent exactly when the text is all whitespace |
| SubmissionsPage.KeptFeedbackTrimmed | src/app/submissions/page.tsx:108 | kept feedback is non-empty with no whitespace at either end |
| SubmissionsPage.KeptFeedbackIsWindow | src/app/submissions/page.tsx:108 | kept feedback is a window of the text with only whitespace cut away on either side |
| SubmissionsPage.ReviewPatch | src/app/submissions/page.tsx:106-109 | an update carrying the chosen status and the normalized feedback and nothing else; see ReviewSetsStatusAndFeedback |
| SubmissionsPage.ReviewSetsStatusAndFeedback | src/app/submissions/page.tsx:103-109 | any chosen status from any current one is written, feedback becomes the normalized text, and nothing else changes |
| SubmissionsPage.ReviewWithoutEditsIsNoOp | src/app/submissions/page.tsx:97-109 | opening and saving unedited leaves a submission unchanged iff its feedback is absent or already trimmed and non-empty |
| SubmissionsPage.ReviewDialog.constructor | src/app/submissions/page.tsx:35-37 | no submission, empty feedback, status pending |
| SubmissionsPage.ReviewDialog.HandleReview | src/app/submissions/page.tsx:97-101 | loads the submission, its feedback ('' if none) and its status |
| SubmissionsPage.ReviewDialog.SelectStatus | src/app/submissions/page.tsx:320-328 | any of the three statuses can be chosen; nothing else changes |
| SubmissionsPage.ReviewDialog.EditFeedback | src/app/submissions/page.tsx:333-338 | sets the feedback text only |
| SubmissionsPage.ReviewDialog.HandleSubmitReview | src/app/submissions/page.tsx:103-114 | with nothing open nothing changes; otherwise the store merges status and normalized feedback into that id and the dialog resets to none, '' and pending |
| MySubmissionsPage.MySubmissions | src/app/my-submissions/page.tsx:29-34 | exactly the user's submissions, as a permutation, newest first |
| MySubmissionsPage.MyStats | src/app/my-submissions/page.tsx:63-68 | the total and per-status counts over all the student's submissions; see CardsMatchTotalIffReferencesResolve |
| MySubmissionsPage.HasCard | src/app/my-submissions/page.tsx:117-118 | a submission renders a card when `getAssignmentById` finds its assignment; see HasCardIffResolves |
| MySubmissionsPage.HasCardIffResolves | src/app/my-submissions/page.tsx:117-118 | a card is rendered exactly when some stored assignment has the submission's assignment id |
| MySubmissionsPage.RenderedCards | src/app/my-submissions/page.tsx:116-118 | each card pairs a listed submission with the stored assignment of the same id, and there are at most as many cards as submissions |
| MySubmissionsPage.RenderedCardsFollowList | src/app/my-submissions/page.tsx:116-118 | one card per submission whose assignment is found, in list order, each carrying the assignment `getAssignmentById` finds for it |
| MySubmissionsPage.CardedSubmissionsIsFilter | src/app/my-submissions/page.tsx:116-118 | the submissions that get a card are what `filter` by "assignment found" keeps of the listing |
| MySubmissionsPage.CardCountIffAllShown | src/app/my-submissions/page.tsx:116-118 | there are as many cards as listed submissions exactly when every one has its assignment found |
| MySubmissionsPage.CardShownIffAssignmentFound | src/app/my-submissions/page.tsx:116-118 | a listed submission gets a card exactly when its assignment is found |
| MySubmissionsPage.CardsMatchTotalIffReferencesResolve | src/app/my-submissions/page.tsx:116-118 | the card count equals the total figure exactly when every submission of the student names a stored assignment; otherwise a submission is counted without a card |
| MySubmissionsPage.FeedbackPanelFor | src/app/my-submissions/page.tsx:176-202 | feedback shown iff non-empty feedback; under-review note iff no feedback and pending; nothing otherwise |
| MySubmissionsPage.PanelAfterReview | src/app/my-submissions/page.tsx:176-202 | after a review the card shows the normalized feedback if any, else the under-review note only when the review left it pending |
| MySubmissionsPage.ResubmitTarget | src/app/my-submissions/page.tsx:213-230 | a Resubmit link iff the submission is rejected, opening the form on the card's assignment |
| MySubmissionsPage.ResubmitLinkIgnoresDeadline | src/app/my-submissions/page.tsx:213-230 | for an overdue, rejected submission the link shows while the assignment list hides Resubmit and the form leaves the assignment out, yet the form's guard accepts it |
| Collections.Filter | src/contexts/DataContext.tsx:178-188 | `filter` keeps exactly the elements satisfying the predicate and never lengthens the sequence |
| Collections.FilterMultiplicity | src/contexts/DataContext.tsx:178-188 | a passing element is kept as often as it occurs; any other is dropped |
| Collections.FilterIsSubsequence | src/contexts/DataContext.tsx:178-188 | the kept elements stay in their original order |
| Collections.Find | src/app/assignments/page.tsx:120 | `find` gives the first element satisfying the predicate, and nothing exactly when none does |
| Collections.SortBy | src/app/assignments/page.tsx:64 | the sort of a copy is sorted by the comparator and a permutation of its input |
| Text.ContainsIsSubstring | src/app/submissions/page.tsx:61-62 | `includes` holds iff the query occurs at some position |
| Text.Contains | src/app/submissions/page.tsx:61-62 | `includes`, by prefix tests at each position; see ContainsIsSubstring |
| Text.Lower | src/app/submissions/page.tsx:61-62 | lowering keeps the length and lowers character by character |
| Text.Trim | src/app/submissions/page.tsx:108 | `trim` leaves no whitespace at either end and gives '' exactly for all-whitespace text |
| Text.TrimIsWindow | src/app/submissions/page.tsx:108 | the trim is a window of the text with only whitespace cut on both sides |
| Text.TrimIdempotent | src/app/submissions/page.tsx:108 | trimming twice gives the same text as trimming once |
| Text.TrimOfTrimmed | src/app/submissions/page.tsx:108 | text with no whitespace at either end is its own trim |
| DateFns.TruncDiv | src/app/assignments/page.tsx:40-41 | the whole-day and whole-hour differences round toward zero |
| DateFns.IsAfter | src/app/assignments/page.tsx:36 | `isAfter`: strictly later |
| DateFns.DifferenceInDays | src/app/assignments/page.tsx:40 | whole days from earlier to later, truncated toward zero: between r and r + 1 days for a non-negative span, between r - 1 and r days for a negative one |
| DateFns.DifferenceInHours | src/app/assignments/page.tsx:41 | whole hours, truncated toward zero, with the same bracketing in hours |

## Left out

- Markup, styling, icons and badge colours are not modelled. Only the conditions that choose what is shown are.
- The dashboard, login, navigation and provider-wiring files are outside this model. The dashboard holds fixed mock figures. Login is authentication and network I/O.
- Local storage reads and writes and `JSON.parse`/`JSON.stringify` are left out (src/contexts/DataContext.tsx:136-150). The load is modelled as "saved value if present, else seed". A saved value that fails to parse throws in the source; that error path is not modelled.
- React effect ordering, state batching, the post-submit `setTimeout` redirect, router pushes and the role redirect guards are framework runtime behaviour. The pages are modelled for a signed-in user of the right role.
- `Date.now()` and `new Date()` are parameters (`freshId`, `now`). The model claims no id uniqueness, because the source gives none.
- Deadlines and submission times are integer milliseconds. Seed deadlines such as `2024-02-15T23:59:59` have no zone, so JavaScript reads them as local time. The model encodes them as UTC.
- `date-fns` calendar and daylight-saving behaviour is not modelled. Day and hour differences are truncating divisions by 86,400,000 and 3,600,000.
- Text.Lower: lowers ASCII letters only. Unicode case mapping is not modelled. The search is modelled on that lowering.
- Text.Trim: removes the ECMAScript whitespace and line-terminator code points listed in `Text.IsWhitespace`. Unicode categories beyond that list are not consulted.
- DataContext.SEED_ASSIGNMENTS and DataContext.SEED_SUBMISSIONS: ids, titles, URLs, names, e-mails, statuses, deadlines and times are those of the source. The long free-text descriptions, notes and feedback are shortened to their opening words followed by " ...". No property depends on their wording, and the full texts make every proof that mentions the seed too costly for the verifier.
- Native browser form validation is not modelled: the URL input is `type="url" required` and the assignment select is `required` (src/app/submit/page.tsx:146-149, 217-222), so the browser may refuse a malformed URL or an empty selection before `handleSubmit` runs. SubmitPage.SubmitGuard models only the checks inside `handleSubmit` and accepts any non-empty URL.
- The submit form's loading flag is observed only after `handleSubmit` returns. The exception path of its `try`/`catch` is not modelled, because the store call cannot fail in the model.
- The success view's title (src/app/submit/page.tsx:109) reads `isResubmission` after `handleSubmit` has cleared the selection, so a resubmission is also announced as "Submitted Successfully!". Only the condition is modelled (SubmitPage.SuccessViewNeverSaysResubmitted), not the view.
- Collections.SortBy: is proved sorted and a permutation. Stability of equal keys is not stated.
- The `@shared/auth` types that src/contexts/DataContext.tsx:3 imports are not part of this model. They are taken to agree with src/types/index.ts.
- `User.name` and `User.email` are treated as always present for the student snapshot. The session types are not part of this model.

## Findings

| source | as written | input that shows it | evidently intended | confidence | as-written member | corrected member |
|---|---|---|---|---|---|---|
| src/app/assignments/page.tsx:108-110 | "Pending" is the number of assignments minus the number of distinct assignment ids among the student's submissions | one assignment "1"; the student's submissions name "1" and "9". The store accepts such a submission unchecked. One route that needs no form: every tab writes whole collections to storage and the last write wins, so a stale tab can overwrite the assignments while a submission to a newer assignment survives. Through the form it would also need the required select, which lists only offered assignments, to let a preselected `?assignmentId=9` be sent; the guard itself does not re-check the id. The page then shows "Pending: -1" | the number of listed assignments the student has not submitted to, between 0 and the total | medium; not executed | AssignmentsPage.PendingCountAsWrittenCanBeNegative | AssignmentsPage.PendingCountBounds |
