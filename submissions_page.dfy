/** The instructor's review page: the submissions to the instructor's own
    assignments, the search and the two filters, newest-first order, the
    status figures, and the review dialog that writes status and feedback
    back to the store. */
module SubmissionsPage {
  import opened Collections
  import opened Types
  import opened Text
  import opened DataContext

  // ---------------------------------------------------------------------
  // Which submissions the page lists

  /** The ids of the instructor's assignments. */
  function InstructorAssignmentIds(assignments: seq<Assignment>, instructorId: string): (r: set<string>)
    ensures forall id :: id in r <==>
              exists a :: a in assignments && a.instructorId == instructorId && a.id == id
  {
    set a | a in AssignmentsByInstructor(assignments, instructorId) :: a.id
  }

  /** `instructorSubmissions`: submissions naming one of the instructor's
      assignments, in store order. */
  function InstructorSubmissions(assignments: seq<Assignment>, submissions: seq<Submission>,
                                 instructorId: string): (r: seq<Submission>)
    ensures forall s :: s in r <==>
              && s in submissions
              && exists a :: a in assignments && a.instructorId == instructorId && a.id == s.assignmentId
    ensures forall s :: multiset(r)[s] ==
              if s.assignmentId in InstructorAssignmentIds(assignments, instructorId) then multiset(submissions)[s] else 0
    ensures IsSubsequence(r, submissions)
  {
    var ids := InstructorAssignmentIds(assignments, instructorId);
    var p := (s: Submission) => s.assignmentId in ids;
    FilterMultiplicity(submissions, p);
    FilterIsSubsequence(submissions, p);
    Filter(submissions, p)
  }

  /** Case-insensitive `includes` on an optional text snapshot. */
  predicate SnapshotMentions(text: Option<string>, query: string) {
    text.Some? && Contains(Lower(text.value), Lower(query))
  }

  function StudentName(s: Submission): Option<string> {
    if s.student.Some? then Some(s.student.value.name) else None
  }

  function AssignmentTitle(s: Submission): Option<string> {
    if s.assignment.Some? then Some(s.assignment.value.title) else None
  }

  /** The search box: empty matches everything, otherwise the query must
      occur in the student name or the assignment title snapshot. */
  predicate MatchesSearch(s: Submission, query: string) {
    query == "" || SnapshotMentions(StudentName(s), query) || SnapshotMentions(AssignmentTitle(s), query)
  }

  /** The status filter: `"all"` or a status name. */
  predicate MatchesStatus(s: Submission, statusFilter: string) {
    statusFilter == "all" || StatusName(s.status) == statusFilter
  }

  /** The assignment filter: `"all"` or an assignment id. */
  predicate MatchesAssignment(s: Submission, assignmentFilter: string) {
    assignmentFilter == "all" || s.assignmentId == assignmentFilter
  }

  /** `filteredSubmissions`: the listed submissions passing all three tests. */
  function FilteredSubmissions(subs: seq<Submission>, query: string, statusFilter: string,
                               assignmentFilter: string): (r: seq<Submission>)
    ensures forall s :: s in r <==>
              s in subs && MatchesSearch(s, query) && MatchesStatus(s, statusFilter)
              && MatchesAssignment(s, assignmentFilter)
    ensures forall s :: multiset(r)[s] ==
              if MatchesSearch(s, query) && MatchesStatus(s, statusFilter) && MatchesAssignment(s, assignmentFilter)
              then multiset(subs)[s] else 0
    ensures IsSubsequence(r, subs)
  {
    var p := (s: Submission) =>
      MatchesSearch(s, query) && MatchesStatus(s, statusFilter) && MatchesAssignment(s, assignmentFilter);
    FilterMultiplicity(subs, p);
    FilterIsSubsequence(subs, p);
    Filter(subs, p)
  }

  /** With an empty search and both filters on `"all"` nothing is hidden. */
  lemma DefaultFiltersKeepEverything(subs: seq<Submission>)
    ensures FilteredSubmissions(subs, "", "all", "all") == subs
  {
    FilterAllTrue(subs, (s: Submission) =>
      MatchesSearch(s, "") && MatchesStatus(s, "all") && MatchesAssignment(s, "all"));
  }

  /** A non-empty search matches exactly when the lowered query occurs at
      some position of the lowered name or title. */
  lemma SearchIsSubstringMatch(s: Submission, query: string)
    requires query != ""
    ensures MatchesSearch(s, query) <==>
              || (s.student.Some? && exists i :: OccursAt(Lower(s.student.value.name), Lower(query), i))
              || (s.assignment.Some? && exists i :: OccursAt(Lower(s.assignment.value.title), Lower(query), i))
  {
    if s.student.Some? {
      ContainsIsSubstring(Lower(s.student.value.name), Lower(query));
    }
    if s.assignment.Some? {
      ContainsIsSubstring(Lower(s.assignment.value.title), Lower(query));
    }
  }

  /** The search does not see letter case in the query. */
  lemma SearchIgnoresQueryCase(s: Submission, query: string)
    ensures MatchesSearch(s, Lower(query)) == MatchesSearch(s, query)
  {
    LowerIdempotent(query);
  }

  /** A submission carrying neither snapshot is found only by the empty search. */
  lemma NoSnapshotsOnlyEmptySearch(s: Submission, query: string)
    requires s.student.None? && s.assignment.None?
    ensures MatchesSearch(s, query) <==> query == ""
  {
  }

  // ---------------------------------------------------------------------
  // Order

  predicate NoOlderThan(a: Submission, b: Submission) {
    b.submittedAt - a.submittedAt <= 0
  }

  lemma NewestFirstIsTotalPreorder()
    ensures TotalPreorder(NoOlderThan)
  {
  }

  /** The comparator `b.submittedAt - a.submittedAt`: the same submissions,
      newest first. */
  function SortNewestFirst(subs: seq<Submission>): (r: seq<Submission>)
    ensures multiset(r) == multiset(subs)
    ensures forall i, j :: 0 <= i < j < |r| ==> r[i].submittedAt >= r[j].submittedAt
  {
    NewestFirstIsTotalPreorder();
    var r := SortBy(subs, NoOlderThan);
    assert forall i, j :: 0 <= i < j < |r| ==> NoOlderThan(r[i], r[j]);
    r
  }

  // ---------------------------------------------------------------------
  // Figures

  datatype Stats = Stats(total: nat, pending: nat, accepted: nat, rejected: nat)

  function CountStatus(subs: seq<Submission>, st: Status): nat {
    |Filter(subs, (s: Submission) => s.status == st)|
  }

  /** The four status figures of the instructor's submissions. */
  function StatusStats(subs: seq<Submission>): Stats {
    Stats(|subs|, CountStatus(subs, Pending), CountStatus(subs, Accepted), CountStatus(subs, Rejected))
  }

  /** Every listed submission is in exactly one status, so the three
      figures add up to the total. */
  lemma {:induction false} StatusStatsAddUp(subs: seq<Submission>)
    ensures var st := StatusStats(subs); st.pending + st.accepted + st.rejected == st.total
  {
    if subs != [] {
      StatusStatsAddUp(subs[1..]);
    }
  }

  // ---------------------------------------------------------------------
  // Review

  /** The trimmed feedback, or none when it trims to nothing. */
  function NormalizedFeedback(feedback: string): Option<string> {
    var t := Trim(feedback);
    if t == "" then None else Some(t)
  }

  /** Feedback is dropped exactly when it is whitespace only. */
  lemma BlankFeedbackDropped(feedback: string)
    ensures NormalizedFeedback(feedback).None? <==> forall k :: 0 <= k < |feedback| ==> IsWhitespace(feedback[k])
  {
  }

  /** Kept feedback has no whitespace at either end. */
  lemma KeptFeedbackTrimmed(feedback: string)
    requires NormalizedFeedback(feedback).Some?
    ensures var t := NormalizedFeedback(feedback).value;
            t != "" && !IsWhitespace(t[0]) && !IsWhitespace(t[|t| - 1])
  {
    var t := Trim(feedback);
    assert NormalizedFeedback(feedback).value == t;
  }

  /** Kept feedback is a window of the text with only whitespace cut away. */
  lemma KeptFeedbackIsWindow(feedback: string)
    requires NormalizedFeedback(feedback).Some?
    ensures exists i, j :: IsTrimWindow(feedback, NormalizedFeedback(feedback).value, i, j)
  {
    TrimIsWindow(feedback);
  }

  /** `{ status: newStatus, feedback: feedback.trim() || undefined }`: the
      feedback key is always present, so an empty text clears the field. */
  function ReviewPatch(newStatus: Status, feedback: string): SubmissionPatch {
    EMPTY_PATCH.(status := Some(newStatus), feedback := Some(NormalizedFeedback(feedback)))
  }

  /** A review sets the status and the normalized feedback and keeps every
      other field of the submission. */
  lemma ReviewSetsStatusAndFeedback(s: Submission, newStatus: Status, feedback: string)
    ensures Merge(s, ReviewPatch(newStatus, feedback))
         == s.(status := newStatus, feedback := NormalizedFeedback(feedback))
  {
  }

  /** Opening the dialog and saving without edits changes nothing exactly
      when the stored feedback is absent or already a non-empty trimmed text. */
  lemma ReviewWithoutEditsIsNoOp(s: Submission)
    ensures Merge(s, ReviewPatch(s.status, s.feedback.GetOr(""))) == s
        <==> s.feedback.None? || (s.feedback.value != "" && Trim(s.feedback.value) == s.feedback.value)
  {
    if s.feedback.Some? && s.feedback.value != "" && Trim(s.feedback.value) == s.feedback.value {
      assert NormalizedFeedback(s.feedback.value) == s.feedback;
    }
  }

  /** The review dialog's state. */
  class ReviewDialog {
    var reviewing: Option<Submission>
    var feedback: string
    var newStatus: Status

    constructor ()
      ensures reviewing.None? && feedback == "" && newStatus == Pending
    {
      reviewing := None;
      feedback := "";
      newStatus := Pending;
    }

    /** `handleReview`: opens the dialog on a submission, starting from its
        stored feedback and status. */
    method HandleReview(s: Submission)
      modifies this
      ensures reviewing == Some(s)
      ensures feedback == s.feedback.GetOr("")
      ensures newStatus == s.status
    {
      reviewing := Some(s);
      feedback := s.feedback.GetOr("");
      newStatus := s.status;
    }

    /** The status select, whose three items are the three statuses. */
    method SelectStatus(value: Status)
      modifies this
      ensures newStatus == value
      ensures reviewing == old(reviewing) && feedback == old(feedback)
    {
      newStatus := value;
    }

    method EditFeedback(value: string)
      modifies this
      ensures feedback == value
      ensures reviewing == old(reviewing) && newStatus == old(newStatus)
    {
      feedback := value;
    }

    /** `handleSubmitReview`: with no open submission nothing happens;
        otherwise the patch is merged into the submission with its id and
        the dialog state is reset. */
    method HandleSubmitReview(store: DataProvider)
      modifies this, store
      ensures old(reviewing).None? ==> unchanged(this) && unchanged(store)
      ensures old(reviewing).Some? ==>
                && store.submissions == ApplyUpdate(old(store.submissions), old(reviewing).value.id,
                                                    ReviewPatch(old(newStatus), old(feedback)))
                && store.assignments == old(store.assignments)
                && reviewing.None? && feedback == "" && newStatus == Pending
    {
      if reviewing.None? {
        return;
      }
      store.UpdateSubmission(reviewing.value.id, ReviewPatch(newStatus, feedback));
      reviewing := None;
      feedback := "";
      newStatus := Pending;
    }
  }
}
