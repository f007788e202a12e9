/** The student's submission form: which assignments it offers, whether the
    selection is a resubmission, the record it hands to the store, and the
    form state around a submit. */
module SubmitPage {
  import opened Collections
  import opened Types
  import opened DateFns
  import opened DataContext
  import opened AssignmentsPage

  // ---------------------------------------------------------------------
  // What the form offers

  /** `availableAssignments`: not overdue, and either never submitted or
      rejected on the submission the page consults. */
  function AvailableAssignments(assignments: seq<Assignment>, studentSubs: seq<Submission>, now: int)
    : (r: seq<Assignment>)
    ensures forall a :: a in r <==>
              && a in assignments
              && !IsAfter(now, a.deadline)
              && (FirstSubmissionFor(studentSubs, a.id).None?
                  || FirstSubmissionFor(studentSubs, a.id).value.status == Rejected)
    ensures forall a :: multiset(r)[a] ==
              if && !IsAfter(now, a.deadline)
                 && (FirstSubmissionFor(studentSubs, a.id).None?
                     || FirstSubmissionFor(studentSubs, a.id).value.status == Rejected)
              then multiset(assignments)[a] else 0
    ensures IsSubsequence(r, assignments)
  {
    var p := (a: Assignment) =>
      !IsAfter(now, a.deadline)
      && (FirstSubmissionFor(studentSubs, a.id).None?
          || FirstSubmissionFor(studentSubs, a.id).value.status == Rejected);
    FilterMultiplicity(assignments, p);
    FilterIsSubsequence(assignments, p);
    Filter(assignments, p)
  }

  /** The form offers an assignment exactly when its card on the assignment
      list shows Submit or Resubmit. */
  lemma AvailableIffCardButton(assignments: seq<Assignment>, studentSubs: seq<Submission>, now: int,
                               a: Assignment)
    requires a in assignments
    ensures a in AvailableAssignments(assignments, studentSubs, now)
        <==> ShowSubmit(a, studentSubs, now) || ShowResubmit(a, studentSubs, now)
  {
    ButtonRules(a, studentSubs, now);
  }

  /** Time passing only removes assignments from the offer. */
  lemma AvailabilityShrinksOverTime(assignments: seq<Assignment>, studentSubs: seq<Submission>,
                                    now1: int, now2: int, a: Assignment)
    requires now1 <= now2
    requires a in AvailableAssignments(assignments, studentSubs, now2)
    ensures a in AvailableAssignments(assignments, studentSubs, now1)
  {
  }

  /** An assignment whose consulted submission is pending or accepted is
      not offered at any time. */
  lemma SettledSubmissionNeverAvailable(assignments: seq<Assignment>, studentSubs: seq<Submission>,
                                        now: int, a: Assignment)
    requires FirstSubmissionFor(studentSubs, a.id).Some?
    requires FirstSubmissionFor(studentSubs, a.id).value.status != Rejected
    ensures a !in AvailableAssignments(assignments, studentSubs, now)
  {
  }

  /** After a first submission to an assignment the form stops offering it;
      while that submission is pending or accepted it stays withdrawn
      whatever the student submits next. */
  lemma FirstSubmissionWithdrawsAssignment(assignments: seq<Assignment>, submissions: seq<Submission>,
                                          studentId: string, draft: SubmissionDraft, freshId: string,
                                          now: int, later: seq<Submission>, a: Assignment)
    requires draft.studentId == studentId && draft.assignmentId == a.id
    requires FirstSubmissionFor(SubmissionsByStudent(submissions, studentId), a.id).None?
    ensures a !in AvailableAssignments(assignments,
                SubmissionsByStudent(submissions + [NewSubmission(draft, freshId, now)], studentId) + later, now)
  {
    var added := NewSubmission(draft, freshId, now);
    var before := SubmissionsByStudent(submissions, studentId);
    var p := (s: Submission) => s.assignmentId == a.id;
    SubmissionsByStudentAppend(submissions, added, studentId);
    FindAppendMiss(before, [added], p);
    assert Find([added], p) == Some(added) by {
      assert p([added][0]);
    }
    FindAppend(before + [added], later, p);
  }

  /** A resubmission leaves the earlier, rejected submission first in line,
      so the assignment is still offered until its deadline. */
  lemma ResubmissionKeepsAssignmentAvailable(assignments: seq<Assignment>, studentSubs: seq<Submission>,
                                             later: seq<Submission>, now: int, a: Assignment)
    requires a in AvailableAssignments(assignments, studentSubs, now)
    requires FirstSubmissionFor(studentSubs, a.id).Some?
    ensures a in AvailableAssignments(assignments, studentSubs + later, now)
  {
    FindAppend(studentSubs, later, (s: Submission) => s.assignmentId == a.id);
  }

  /** `isResubmission`: the consulted submission for the selection was rejected. */
  predicate IsResubmission(selectedAssignmentId: string, studentSubs: seq<Submission>) {
    var existing := FirstSubmissionFor(studentSubs, selectedAssignmentId);
    existing.Some? && existing.value.status == Rejected
  }

  /** An offered assignment is a resubmission exactly when the student
      already submitted to it. */
  lemma OfferedResubmissionIffSubmitted(assignments: seq<Assignment>, studentSubs: seq<Submission>, now: int,
                                        a: Assignment)
    requires a in AvailableAssignments(assignments, studentSubs, now)
    ensures IsResubmission(a.id, studentSubs) <==> a.id in SubmittedAssignmentIds(studentSubs)
  {
    SubmittedIffFound(studentSubs, a.id);
  }

  // ---------------------------------------------------------------------
  // The payload handed to the store

  /** The record `handleSubmit` passes to `addSubmission`: the empty note is
      left out, and the title snapshot comes from the selected assignment
      or is empty when the id names none. */
  function SubmissionPayload(selectedAssignmentId: string, submissionUrl: string, note: string,
                             user: User, assignments: seq<Assignment>): (d: SubmissionDraft)
    ensures d.assignmentId == selectedAssignmentId && d.studentId == user.id
    ensures d.submissionUrl == submissionUrl
    ensures d.note.None? <==> note == ""
    ensures d.note.Some? ==> d.note.value == note
    ensures d.feedback.None? && d.status.None? && d.submittedAt.None?
    ensures d.student == Some(StudentSnapshot(user.name, user.email))
    ensures d.assignment.Some?
    ensures AssignmentById(assignments, selectedAssignmentId).Some? ==>
              d.assignment.value.title == AssignmentById(assignments, selectedAssignmentId).value.title
    ensures d.assignment.value.title != "" ==>
              exists i :: 0 <= i < |assignments| && assignments[i].id == selectedAssignmentId
                          && assignments[i].title == d.assignment.value.title
    ensures (forall i :: 0 <= i < |assignments| ==> assignments[i].id != selectedAssignmentId)
              ==> d.assignment.value.title == ""
  {
    var selected := AssignmentById(assignments, selectedAssignmentId);
    SubmissionDraft(
      selectedAssignmentId, user.id, submissionUrl,
      if note == "" then None else Some(note),
      None, None, None,
      Some(StudentSnapshot(user.name, user.email)),
      Some(AssignmentSnapshot(if selected.Some? then selected.value.title else "")))
  }

  /** What the form requires before it submits: a selection, a URL and a
      signed-in user. Neither the deadline nor earlier submissions are
      checked again. */
  predicate SubmitGuard(selectedAssignmentId: string, submissionUrl: string, session: Option<User>) {
    selectedAssignmentId != "" && submissionUrl != "" && session.Some?
  }

  /** The guard does not re-check availability: an id present in the form
      state (set through the query string, say) passes it after the deadline,
      although the form no longer offers that assignment. */
  lemma GuardIgnoresAvailability()
    ensures var a := Assignment("1", "T", "D", 0, "1");
            var user := User("2", "S", "s@example.com", Student);
            && SubmitGuard("1", "https://example.org", Some(user))
            && a !in AvailableAssignments([a], [], 1)
  {
  }

  /** The success view asks `isResubmission` after the submit has cleared
      the selection, so as long as no stored submission has an empty
      assignment id it never reads "Resubmitted Successfully!". */
  lemma SuccessViewNeverSaysResubmitted(studentSubs: seq<Submission>)
    requires forall i :: 0 <= i < |studentSubs| ==> studentSubs[i].assignmentId != ""
    ensures !IsResubmission("", studentSubs)
  {
  }

  // ---------------------------------------------------------------------
  // The form state

  class SubmitForm {
    var selectedAssignmentId: string
    var submissionUrl: string
    var note: string
    var isLoading: bool
    var showSuccess: bool

    constructor ()
      ensures selectedAssignmentId == "" && submissionUrl == "" && note == ""
      ensures !isLoading && !showSuccess
    {
      selectedAssignmentId := "";
      submissionUrl := "";
      note := "";
      isLoading := false;
      showSuccess := false;
    }

    /** The query-string effect: a present, non-empty `assignmentId`
        replaces the selection; anything else leaves it. */
    method Preselect(assignmentIdParam: Option<string>)
      modifies this
      ensures assignmentIdParam.Some? && assignmentIdParam.value != "" ==>
                selectedAssignmentId == assignmentIdParam.value
      ensures !(assignmentIdParam.Some? && assignmentIdParam.value != "") ==>
                selectedAssignmentId == old(selectedAssignmentId)
      ensures submissionUrl == old(submissionUrl) && note == old(note)
      ensures isLoading == old(isLoading) && showSuccess == old(showSuccess)
    {
      if assignmentIdParam.Some? && assignmentIdParam.value != "" {
        selectedAssignmentId := assignmentIdParam.value;
      }
    }

    /** The assignment select's `onValueChange`. */
    method SelectAssignment(value: string)
      modifies this
      ensures selectedAssignmentId == value
      ensures submissionUrl == old(submissionUrl) && note == old(note)
      ensures isLoading == old(isLoading) && showSuccess == old(showSuccess)
    {
      selectedAssignmentId := value;
    }

    method EditUrl(value: string)
      modifies this
      ensures submissionUrl == value
      ensures selectedAssignmentId == old(selectedAssignmentId) && note == old(note)
      ensures isLoading == old(isLoading) && showSuccess == old(showSuccess)
    {
      submissionUrl := value;
    }

    method EditNote(value: string)
      modifies this
      ensures note == value
      ensures selectedAssignmentId == old(selectedAssignmentId) && submissionUrl == old(submissionUrl)
      ensures isLoading == old(isLoading) && showSuccess == old(showSuccess)
    {
      note := value;
    }

    /** `handleSubmit`: when the guard fails nothing changes; otherwise the
        store gains the payload as a new pending submission, the form is
        cleared and the success view is shown. The session user is the
        page's student. */
    method HandleSubmit(store: DataProvider, session: Option<User>, freshId: string, now: int)
      modifies this, store
      ensures !SubmitGuard(old(selectedAssignmentId), old(submissionUrl), session) ==>
                && unchanged(this) && unchanged(store)
      ensures SubmitGuard(old(selectedAssignmentId), old(submissionUrl), session) ==>
                && store.submissions == old(store.submissions) + [NewSubmission(
                     SubmissionPayload(old(selectedAssignmentId), old(submissionUrl), old(note),
                                       session.value, old(store.assignments)),
                     freshId, now)]
                && store.assignments == old(store.assignments)
                && selectedAssignmentId == "" && submissionUrl == "" && note == ""
                && showSuccess && !isLoading
    {
      if !SubmitGuard(selectedAssignmentId, submissionUrl, session) {
        return;
      }
      var payload := SubmissionPayload(selectedAssignmentId, submissionUrl, note, session.value, store.assignments);
      isLoading := true;
      store.AddSubmission(payload, freshId, now);
      showSuccess := true;
      submissionUrl := "";
      note := "";
      selectedAssignmentId := "";
      isLoading := false;
    }
  }
}
