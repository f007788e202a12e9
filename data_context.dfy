/** The entity store: the two collections every page reads, the three
    mutators that replace them, the three filter queries, and the seed set
    loaded on first run. The store validates nothing: it does not check that
    a submission's assignment exists, does not refuse a second submission for
    the same assignment and student, and takes its ids from the caller. */
module DataContext {
  import opened Collections
  import opened Types

  // ---------------------------------------------------------------------
  // Inputs of the mutators

  /** What `addAssignment` receives: an assignment without its id. */
  datatype AssignmentDraft = AssignmentDraft(
    title: string,
    description: string,
    deadline: int,
    instructorId: string)

  /** What `addSubmission` receives: a submission without its id. The status
      and the submission time may be carried or not; either way the store
      overrides them. */
  datatype SubmissionDraft = SubmissionDraft(
    assignmentId: string,
    studentId: string,
    submissionUrl: string,
    note: Option<string>,
    feedback: Option<string>,
    status: Option<Status>,
    submittedAt: Option<int>,
    student: Option<StudentSnapshot>,
    assignment: Option<AssignmentSnapshot>)

  /** What `updateSubmission` receives: any subset of a submission's fields.
      For an optional field, `Some(None)` is a key present with the value
      `undefined`, which the object spread copies and so clears the field. */
  datatype SubmissionPatch = SubmissionPatch(
    id: Option<string>,
    assignmentId: Option<string>,
    studentId: Option<string>,
    submissionUrl: Option<string>,
    note: Option<Option<string>>,
    feedback: Option<Option<string>>,
    status: Option<Status>,
    submittedAt: Option<int>,
    student: Option<Option<StudentSnapshot>>,
    assignment: Option<Option<AssignmentSnapshot>>)

  const EMPTY_PATCH := SubmissionPatch(None, None, None, None, None, None, None, None, None, None)

  // ---------------------------------------------------------------------
  // Record construction and merging

  /** An assignment with its id dropped. */
  function AssignmentDraftOf(a: Assignment): AssignmentDraft {
    AssignmentDraft(a.title, a.description, a.deadline, a.instructorId)
  }

  /** `{ ...assignment, id: Date.now().toString() }`, the id passed in. */
  function NewAssignment(d: AssignmentDraft, freshId: string): (a: Assignment)
    ensures AssignmentDraftOf(a) == d && a.id == freshId
  {
    Assignment(freshId, d.title, d.description, d.deadline, d.instructorId)
  }

  lemma NewAssignmentRoundTrip(a: Assignment)
    ensures NewAssignment(AssignmentDraftOf(a), a.id) == a
  {
  }

  /** A submission with its id dropped. */
  function SubmissionDraftOf(s: Submission): SubmissionDraft {
    SubmissionDraft(s.assignmentId, s.studentId, s.submissionUrl, s.note, s.feedback,
                    Some(s.status), Some(s.submittedAt), s.student, s.assignment)
  }

  /** `{ ...submission, id, submittedAt: now, status: 'pending' }`: every
      caller-supplied field is kept except status and time, which are forced. */
  function NewSubmission(d: SubmissionDraft, freshId: string, now: int): (s: Submission)
    ensures s.id == freshId && s.status == Pending && s.submittedAt == now
    ensures SubmissionDraftOf(s) == d.(status := Some(Pending), submittedAt := Some(now))
  {
    Submission(freshId, d.assignmentId, d.studentId, d.submissionUrl, d.note, d.feedback,
               Pending, now, d.student, d.assignment)
  }

  /** Whatever status and time the draft carries make no difference. */
  lemma NewSubmissionIgnoresCarriedStatus(d: SubmissionDraft, st: Option<Status>, at: Option<int>,
                                          freshId: string, now: int)
    ensures NewSubmission(d.(status := st, submittedAt := at), freshId, now)
         == NewSubmission(d, freshId, now)
  {
  }

  /** The value a spread leaves in a field: the patch's if present. */
  function Override<T>(patch: Option<T>, current: T): T {
    match patch
    case Some(v) => v
    case None => current
  }

  /** `{ ...submission, ...updates }`. */
  function Merge(s: Submission, u: SubmissionPatch): Submission {
    Submission(
      Override(u.id, s.id),
      Override(u.assignmentId, s.assignmentId),
      Override(u.studentId, s.studentId),
      Override(u.submissionUrl, s.submissionUrl),
      Override(u.note, s.note),
      Override(u.feedback, s.feedback),
      Override(u.status, s.status),
      Override(u.submittedAt, s.submittedAt),
      Override(u.student, s.student),
      Override(u.assignment, s.assignment))
  }

  /** The fields a patch carries are the only ones that change. */
  lemma MergeKeepsAbsentFields(s: Submission, u: SubmissionPatch)
    ensures u.id.None? ==> Merge(s, u).id == s.id
    ensures u.assignmentId.None? ==> Merge(s, u).assignmentId == s.assignmentId
    ensures u.studentId.None? ==> Merge(s, u).studentId == s.studentId
    ensures u.submissionUrl.None? ==> Merge(s, u).submissionUrl == s.submissionUrl
    ensures u.note.None? ==> Merge(s, u).note == s.note
    ensures u.feedback.None? ==> Merge(s, u).feedback == s.feedback
    ensures u.status.None? ==> Merge(s, u).status == s.status
    ensures u.submittedAt.None? ==> Merge(s, u).submittedAt == s.submittedAt
    ensures u.student.None? ==> Merge(s, u).student == s.student
    ensures u.assignment.None? ==> Merge(s, u).assignment == s.assignment
  {
  }

  /** The fields a patch carries overwrite the record's. */
  lemma MergeOverwritesPresentFields(s: Submission, u: SubmissionPatch)
    ensures u.id.Some? ==> Merge(s, u).id == u.id.value
    ensures u.assignmentId.Some? ==> Merge(s, u).assignmentId == u.assignmentId.value
    ensures u.studentId.Some? ==> Merge(s, u).studentId == u.studentId.value
    ensures u.submissionUrl.Some? ==> Merge(s, u).submissionUrl == u.submissionUrl.value
    ensures u.note.Some? ==> Merge(s, u).note == u.note.value
    ensures u.feedback.Some? ==> Merge(s, u).feedback == u.feedback.value
    ensures u.status.Some? ==> Merge(s, u).status == u.status.value
    ensures u.submittedAt.Some? ==> Merge(s, u).submittedAt == u.submittedAt.value
    ensures u.student.Some? ==> Merge(s, u).student == u.student.value
    ensures u.assignment.Some? ==> Merge(s, u).assignment == u.assignment.value
  {
  }

  lemma MergeEmptyPatch(s: Submission)
    ensures Merge(s, EMPTY_PATCH) == s
  {
  }

  lemma MergeIdempotent(s: Submission, u: SubmissionPatch)
    ensures Merge(Merge(s, u), u) == Merge(s, u)
  {
  }

  /** `prev.map(s => s.id === id ? { ...s, ...updates } : s)`. */
  function ApplyUpdate(subs: seq<Submission>, id: string, u: SubmissionPatch): (r: seq<Submission>)
    ensures |r| == |subs|
    ensures forall i :: 0 <= i < |subs| && subs[i].id == id ==> r[i] == Merge(subs[i], u)
    ensures forall i :: 0 <= i < |subs| && subs[i].id != id ==> r[i] == subs[i]
  {
    if subs == [] then []
    else
      var rest := ApplyUpdate(subs[1..], id, u);
      [if subs[0].id == id then Merge(subs[0], u) else subs[0]] + rest
  }

  /** No record with the id: nothing changes. */
  lemma ApplyUpdateMissingId(subs: seq<Submission>, id: string, u: SubmissionPatch)
    requires forall i :: 0 <= i < |subs| ==> subs[i].id != id
    ensures ApplyUpdate(subs, id, u) == subs
  {
  }

  /** Running the same update a second time changes nothing more, even when
      the patch rewrites the id itself. */
  lemma ApplyUpdateIdempotent(subs: seq<Submission>, id: string, u: SubmissionPatch)
    ensures ApplyUpdate(ApplyUpdate(subs, id, u), id, u) == ApplyUpdate(subs, id, u)
  {
    var once := ApplyUpdate(subs, id, u);
    var twice := ApplyUpdate(once, id, u);
    forall i | 0 <= i < |subs| ensures twice[i] == once[i] {
      if subs[i].id == id {
        MergeIdempotent(subs[i], u);
      }
    }
  }

  // ---------------------------------------------------------------------
  // Queries

  /** `assignments.find(a => a.id === id)`: the first assignment with that id. */
  function AssignmentById(assignments: seq<Assignment>, id: string): (r: Option<Assignment>)
    ensures r.None? <==> forall j :: 0 <= j < |assignments| ==> assignments[j].id != id
    ensures r.Some? ==> exists i :: 0 <= i < |assignments| && assignments[i] == r.value && r.value.id == id
                                    && forall j :: 0 <= j < i ==> assignments[j].id != id
  {
    Find(assignments, (a: Assignment) => a.id == id)
  }

  function AssignmentsByInstructor(assignments: seq<Assignment>, instructorId: string): (r: seq<Assignment>)
    ensures forall a :: a in r <==> a in assignments && a.instructorId == instructorId
    ensures forall a :: multiset(r)[a] == if a.instructorId == instructorId then multiset(assignments)[a] else 0
    ensures IsSubsequence(r, assignments)
  {
    var p := (a: Assignment) => a.instructorId == instructorId;
    FilterMultiplicity(assignments, p);
    FilterIsSubsequence(assignments, p);
    Filter(assignments, p)
  }

  function SubmissionsByStudent(submissions: seq<Submission>, studentId: string): (r: seq<Submission>)
    ensures forall s :: s in r <==> s in submissions && s.studentId == studentId
    ensures forall s :: multiset(r)[s] == if s.studentId == studentId then multiset(submissions)[s] else 0
    ensures IsSubsequence(r, submissions)
  {
    var p := (s: Submission) => s.studentId == studentId;
    FilterMultiplicity(submissions, p);
    FilterIsSubsequence(submissions, p);
    Filter(submissions, p)
  }

  function SubmissionsByAssignment(submissions: seq<Submission>, assignmentId: string): (r: seq<Submission>)
    ensures forall s :: s in r <==> s in submissions && s.assignmentId == assignmentId
    ensures forall s :: multiset(r)[s] == if s.assignmentId == assignmentId then multiset(submissions)[s] else 0
    ensures IsSubsequence(r, submissions)
  {
    var p := (s: Submission) => s.assignmentId == assignmentId;
    FilterMultiplicity(submissions, p);
    FilterIsSubsequence(submissions, p);
    Filter(submissions, p)
  }

  /** A submission by another student leaves a student's view as it was;
      one by the student is appended to it. */
  lemma SubmissionsByStudentAppend(submissions: seq<Submission>, s: Submission, studentId: string)
    ensures SubmissionsByStudent(submissions + [s], studentId)
         == SubmissionsByStudent(submissions, studentId) + (if s.studentId == studentId then [s] else [])
  {
    FilterAppend(submissions, [s], (x: Submission) => x.studentId == studentId);
  }

  // ---------------------------------------------------------------------
  // Seed data and loading

  /** 2024-02-01T00:00:00 as milliseconds since the epoch. */
  const FEB_1_2024: int := 1_706_745_600_000

  /** A February 2024 wall-clock time as milliseconds. */
  function Feb2024(day: int, hour: int, minute: int, second: int): int {
    FEB_1_2024 + (day - 1) * 86_400_000 + hour * 3_600_000 + minute * 60_000 + second * 1000
  }

  const SEED_ASSIGNMENTS: seq<Assignment> := [
    Assignment("1", "React Components Project",
      "Create a comprehensive React ...",
      Feb2024(15, 23, 59, 59), "1"),
    Assignment("2", "Database Design Assignment",
      "Design and implement a ...",
      Feb2024(20, 23, 59, 59), "1"),
    Assignment("3", "API Integration Task",
      "Build a web application ...",
      Feb2024(25, 23, 59, 59), "1"),
    Assignment("4", "CSS Grid Layout Challenge",
      "Create a responsive webpage ...",
      Feb2024(18, 23, 59, 59), "1"),
    Assignment("5", "JavaScript Algorithms Practice",
      "Solve a series of ...",
      Feb2024(12, 23, 59, 59), "1")
  ]

  const SEED_SUBMISSIONS: seq<Submission> := [
    Submission("1", "1", "2", "https://github.com/student/react-components-project",
      Some("Implemented all required features ..."),
      Some("Excellent work! Your component ..."),
      Accepted, Feb2024(10, 14, 30, 0),
      Some(StudentSnapshot("John Student", "student@example.com")),
      Some(AssignmentSnapshot("React Components Project"))),
    Submission("2", "4", "2", "https://codepen.io/student/css-grid-layout",
      Some("Created a responsive layout ..."),
      Some("Good responsive implementation. Consider ..."),
      Accepted, Feb2024(8, 16, 45, 0),
      Some(StudentSnapshot("John Student", "student@example.com")),
      Some(AssignmentSnapshot("CSS Grid Layout Challenge"))),
    Submission("3", "5", "2", "https://github.com/student/js-algorithms",
      Some("Solved all problems with ..."),
      Some("The solutions are correct ..."),
      Rejected, Feb2024(5, 9, 15, 0),
      Some(StudentSnapshot("John Student", "student@example.com")),
      Some(AssignmentSnapshot("JavaScript Algorithms Practice"))),
    Submission("4", "2", "3", "https://github.com/alice/library-db-design",
      Some("Complete database schema with ..."),
      None,
      Pending, Feb2024(11, 11, 20, 0),
      Some(StudentSnapshot("Alice Johnson", "alice@example.com")),
      Some(AssignmentSnapshot("Database Design Assignment"))),
    Submission("5", "1", "4", "https://github.com/bob/react-ecommerce",
      Some("Built the e-commerce catalog ..."),
      None,
      Pending, Feb2024(12, 8, 30, 0),
      Some(StudentSnapshot("Bob Wilson", "bob@example.com")),
      Some(AssignmentSnapshot("React Components Project"))),
    Submission("6", "3", "5", "https://weather-app-demo.netlify.app",
      Some("Weather app using OpenWeatherMap ..."),
      Some("Great API integration! The ..."),
      Accepted, Feb2024(9, 13, 45, 0),
      Some(StudentSnapshot("Emma Davis", "emma@example.com")),
      Some(AssignmentSnapshot("API Integration Task")))
  ]

  /** Every submission names an assignment of the collection. */
  ghost predicate ReferencesResolve(assignments: seq<Assignment>, submissions: seq<Submission>) {
    forall i :: 0 <= i < |submissions| ==>
      exists j :: 0 <= j < |assignments| && assignments[j].id == submissions[i].assignmentId
  }

  ghost predicate DistinctAssignmentIds(assignments: seq<Assignment>) {
    forall i, j :: 0 <= i < j < |assignments| ==> assignments[i].id != assignments[j].id
  }

  ghost predicate DistinctSubmissionIds(submissions: seq<Submission>) {
    forall i, j :: 0 <= i < j < |submissions| ==> submissions[i].id != submissions[j].id
  }

  /** The ids of the seed assignments, in order. */
  lemma SeedAssignmentIds()
    ensures |SEED_ASSIGNMENTS| == 5
    ensures SEED_ASSIGNMENTS[0].id == "1" && SEED_ASSIGNMENTS[1].id == "2" && SEED_ASSIGNMENTS[2].id == "3"
         && SEED_ASSIGNMENTS[3].id == "4" && SEED_ASSIGNMENTS[4].id == "5"
  {
  }

  /** The ids of the seed submissions and the assignments they name, in order. */
  lemma SeedSubmissionIds()
    ensures |SEED_SUBMISSIONS| == 6
    ensures SEED_SUBMISSIONS[0].id == "1" && SEED_SUBMISSIONS[1].id == "2" && SEED_SUBMISSIONS[2].id == "3"
         && SEED_SUBMISSIONS[3].id == "4" && SEED_SUBMISSIONS[4].id == "5" && SEED_SUBMISSIONS[5].id == "6"
    ensures SEED_SUBMISSIONS[0].assignmentId == "1" && SEED_SUBMISSIONS[1].assignmentId == "4"
         && SEED_SUBMISSIONS[2].assignmentId == "5" && SEED_SUBMISSIONS[3].assignmentId == "2"
         && SEED_SUBMISSIONS[4].assignmentId == "1" && SEED_SUBMISSIONS[5].assignmentId == "3"
  {
  }

  lemma SeedAssignmentIdsDistinct()
    ensures DistinctAssignmentIds(SEED_ASSIGNMENTS)
  {
    SeedAssignmentIds();
  }

  lemma SeedSubmissionIdsDistinct()
    ensures DistinctSubmissionIds(SEED_SUBMISSIONS)
  {
    SeedSubmissionIds();
  }

  /** Every seed submission references a seed assignment. */
  lemma SeedReferencesResolve()
    ensures ReferencesResolve(SEED_ASSIGNMENTS, SEED_SUBMISSIONS)
  {
    SeedAssignmentIds();
    SeedSubmissionIds();
    var a := SEED_ASSIGNMENTS;
    var s := SEED_SUBMISSIONS;
    assert a[0].id == s[0].assignmentId && a[3].id == s[1].assignmentId && a[4].id == s[2].assignmentId;
    assert a[1].id == s[3].assignmentId && a[0].id == s[4].assignmentId && a[2].id == s[5].assignmentId;
  }

  /** The value a load picks for one collection: the saved one when the key
      holds a value, otherwise the seed. */
  function LoadOrSeed<T>(saved: Option<seq<T>>, seed: seq<T>): (r: seq<T>)
    ensures saved.Some? ==> r == saved.value
    ensures saved.None? ==> r == seed
  {
    saved.GetOr(seed)
  }

  // ---------------------------------------------------------------------
  // The provider's state

  /** The provider: two collections that each mutator replaces. */
  class DataProvider {
    var assignments: seq<Assignment>
    var submissions: seq<Submission>

    /** Both collections start empty until the load runs. */
    constructor ()
      ensures assignments == [] && submissions == []
    {
      assignments := [];
      submissions := [];
    }

    /** The mount-time load; `None` stands for a key with no saved value. */
    method Load(savedAssignments: Option<seq<Assignment>>, savedSubmissions: Option<seq<Submission>>)
      modifies this
      ensures assignments == LoadOrSeed(savedAssignments, SEED_ASSIGNMENTS)
      ensures submissions == LoadOrSeed(savedSubmissions, SEED_SUBMISSIONS)
    {
      assignments := LoadOrSeed(savedAssignments, SEED_ASSIGNMENTS);
      submissions := LoadOrSeed(savedSubmissions, SEED_SUBMISSIONS);
    }

    /** Appends one assignment with the given id; nothing else changes. */
    method AddAssignment(draft: AssignmentDraft, freshId: string)
      modifies this
      ensures assignments == old(assignments) + [NewAssignment(draft, freshId)]
      ensures submissions == old(submissions)
    {
      assignments := assignments + [NewAssignment(draft, freshId)];
    }

    /** Appends one pending submission stamped `now`, whatever its
        assignment id and whatever the student already submitted. */
    method AddSubmission(draft: SubmissionDraft, freshId: string, now: int)
      modifies this
      ensures submissions == old(submissions) + [NewSubmission(draft, freshId, now)]
      ensures assignments == old(assignments)
    {
      submissions := submissions + [NewSubmission(draft, freshId, now)];
    }

    /** Merges `updates` into every submission whose id is `id`. */
    method UpdateSubmission(id: string, updates: SubmissionPatch)
      modifies this
      ensures submissions == ApplyUpdate(old(submissions), id, updates)
      ensures assignments == old(assignments)
    {
      submissions := ApplyUpdate(submissions, id, updates);
    }
  }

  /** The store lets a submission in that references no assignment, so the
      consistency of the seed is not an invariant of the store. */
  lemma AddSubmissionMayLeaveDanglingReference()
    ensures var added := NewSubmission(
              SubmissionDraft("404", "2", "https://example.org", None, None, None, None, None, None),
              "7", 0);
            !ReferencesResolve(SEED_ASSIGNMENTS, SEED_SUBMISSIONS + [added])
  {
    var added := NewSubmission(
      SubmissionDraft("404", "2", "https://example.org", None, None, None, None, None, None), "7", 0);
    var all := SEED_SUBMISSIONS + [added];
    assert all[6].assignmentId == "404";
    assert forall j :: 0 <= j < |SEED_ASSIGNMENTS| ==> SEED_ASSIGNMENTS[j].id != "404";
  }
}
