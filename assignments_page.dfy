/** The student's assignment list: the deadline badge of each assignment,
    the listing order, the Submit and Resubmit buttons, and the summary
    counts. The session user's submissions are those the store's
    by-student query returns. */
module AssignmentsPage {
  import opened Collections
  import opened Types
  import opened DateFns
  import opened DataContext

  // ---------------------------------------------------------------------
  // Deadline classes

  datatype DeadlineStatus = Overdue | Urgent(hoursLeft: int) | Soon(daysLeft: int) | Plenty(daysLeft: int)

  /** Overdue strictly after the deadline; otherwise by whole days left:
      under one is urgent, up to three is soon, more is plenty. The badge
      shows the whole hours (urgent) or whole days (soon, plenty) left,
      rounded down. */
  function GetDeadlineStatus(deadline: int, now: int): (r: DeadlineStatus)
    ensures r.Overdue? <==> now > deadline
    ensures r.Urgent? <==> 0 <= deadline - now < MS_PER_DAY
    ensures r.Soon? <==> MS_PER_DAY <= deadline - now < 4 * MS_PER_DAY
    ensures r.Plenty? <==> 4 * MS_PER_DAY <= deadline - now
    ensures r.Urgent? ==> 0 <= r.hoursLeft <= 23
    ensures r.Soon? ==> 1 <= r.daysLeft <= 3
    ensures r.Plenty? ==> 4 <= r.daysLeft
    ensures r.Urgent? ==> r.hoursLeft * MS_PER_HOUR <= deadline - now < (r.hoursLeft + 1) * MS_PER_HOUR
    ensures r.Soon? ==> r.daysLeft * MS_PER_DAY <= deadline - now < (r.daysLeft + 1) * MS_PER_DAY
    ensures r.Plenty? ==> r.daysLeft * MS_PER_DAY <= deadline - now < (r.daysLeft + 1) * MS_PER_DAY
  {
    if IsAfter(now, deadline) then Overdue
    else
      var daysLeft := DifferenceInDays(deadline, now);
      var hoursLeft := DifferenceInHours(deadline, now);
      if daysLeft < 1 then Urgent(hoursLeft)
      else if daysLeft <= 3 then Soon(daysLeft)
      else Plenty(daysLeft)
  }

  /** How far along the sequence plenty, soon, urgent, overdue a class is. */
  function Rank(s: DeadlineStatus): nat {
    match s
    case Plenty(_) => 0
    case Soon(_) => 1
    case Urgent(_) => 2
    case Overdue => 3
  }

  /** For a fixed deadline the class only moves forward as time passes. */
  lemma DeadlineStatusOnlyAdvances(deadline: int, now1: int, now2: int)
    requires now1 <= now2
    ensures Rank(GetDeadlineStatus(deadline, now1)) <= Rank(GetDeadlineStatus(deadline, now2))
  {
  }

  /** Urgency on the first seed deadline (2024-02-15T23:59:59): five days
      before, just under an hour before, the instant itself, one second after. */
  lemma DeadlineStatusExamples()
    ensures GetDeadlineStatus(Feb2024(15, 23, 59, 59), Feb2024(10, 0, 0, 0)) == Plenty(5)
    ensures GetDeadlineStatus(Feb2024(15, 23, 59, 59), Feb2024(15, 23, 0, 0)) == Urgent(0)
    ensures GetDeadlineStatus(Feb2024(15, 23, 59, 59), Feb2024(15, 23, 59, 59)) == Urgent(0)
    ensures GetDeadlineStatus(Feb2024(15, 23, 59, 59), Feb2024(16, 0, 0, 0)) == Overdue
  {
  }

  // ---------------------------------------------------------------------
  // Listing order

  /** The listing comparator: non-overdue first, then by deadline. */
  function CompareAssignments(a: Assignment, b: Assignment, now: int): int {
    var aOverdue := IsAfter(now, a.deadline);
    var bOverdue := IsAfter(now, b.deadline);
    if aOverdue != bOverdue then (if aOverdue then 1 else -1)
    else a.deadline - b.deadline
  }

  /** Swapping the two assignments flips the comparator's sign, as
      `Array.prototype.sort` expects of a consistent comparator. */
  lemma CompareAssignmentsAntisymmetric(a: Assignment, b: Assignment, now: int)
    ensures CompareAssignments(b, a, now) == -CompareAssignments(a, b, now)
    ensures CompareAssignments(a, a, now) == 0
  {
  }

  predicate ListedNoLaterThan(a: Assignment, b: Assignment, now: int) {
    CompareAssignments(a, b, now) <= 0
  }

  lemma ListingOrderIsTotalPreorder(now: int)
    ensures TotalPreorder((a: Assignment, b: Assignment) => ListedNoLaterThan(a, b, now))
  {
  }

  /** `sortedAssignments`: the same assignments, every non-overdue one
      before every overdue one, deadlines ascending within each group. */
  function SortedAssignments(assignments: seq<Assignment>, now: int): (r: seq<Assignment>)
    ensures multiset(r) == multiset(assignments)
    ensures forall i, j :: 0 <= i < j < |r| && IsAfter(now, r[i].deadline) ==> IsAfter(now, r[j].deadline)
    ensures forall i, j :: 0 <= i < j < |r| && IsAfter(now, r[i].deadline) == IsAfter(now, r[j].deadline)
              ==> r[i].deadline <= r[j].deadline
  {
    ListingOrderIsTotalPreorder(now);
    var le := (a: Assignment, b: Assignment) => ListedNoLaterThan(a, b, now);
    var r := SortBy(assignments, le);
    assert forall i, j :: 0 <= i < j < |r| ==> ListedNoLaterThan(r[i], r[j], now) by {
      forall i, j | 0 <= i < j < |r| ensures ListedNoLaterThan(r[i], r[j], now) {
        assert le(r[i], r[j]);
      }
    }
    r
  }

  // ---------------------------------------------------------------------
  // The student's submissions as the cards see them

  /** `submittedAssignmentIds`: every assignment id the student submitted to. */
  function SubmittedAssignmentIds(studentSubs: seq<Submission>): (r: set<string>)
    ensures forall id :: id in r <==> exists s :: s in studentSubs && s.assignmentId == id
  {
    set s | s in studentSubs :: s.assignmentId
  }

  /** `studentSubmissions.find(sub => sub.assignmentId === assignmentId)`. */
  function FirstSubmissionFor(studentSubs: seq<Submission>, assignmentId: string): (r: Option<Submission>)
    ensures r.None? <==> forall j :: 0 <= j < |studentSubs| ==> studentSubs[j].assignmentId != assignmentId
    ensures r.Some? ==> exists i :: 0 <= i < |studentSubs| && studentSubs[i] == r.value
                                    && r.value.assignmentId == assignmentId
                                    && forall j :: 0 <= j < i ==> studentSubs[j].assignmentId != assignmentId
  {
    Find(studentSubs, (s: Submission) => s.assignmentId == assignmentId)
  }

  /** The submission a card consults is the student's earliest stored
      submission for the assignment, in the store's own order. */
  lemma FirstSubmissionInStoreOrder(submissions: seq<Submission>, studentId: string, assignmentId: string)
    ensures FirstSubmissionFor(SubmissionsByStudent(submissions, studentId), assignmentId)
         == Find(submissions, (s: Submission) => s.studentId == studentId && s.assignmentId == assignmentId)
  {
    FindAfterFilter(submissions, (s: Submission) => s.studentId == studentId,
                    (s: Submission) => s.assignmentId == assignmentId,
                    (s: Submission) => s.studentId == studentId && s.assignmentId == assignmentId);
  }

  /** Whether the card offers Submit. */
  predicate ShowSubmit(a: Assignment, studentSubs: seq<Submission>, now: int) {
    a.id !in SubmittedAssignmentIds(studentSubs) && !GetDeadlineStatus(a.deadline, now).Overdue?
  }

  /** Whether the card offers Resubmit. */
  predicate ShowResubmit(a: Assignment, studentSubs: seq<Submission>, now: int) {
    var sub := FirstSubmissionFor(studentSubs, a.id);
    && a.id in SubmittedAssignmentIds(studentSubs)
    && sub.Some? && sub.value.status == Rejected
    && !GetDeadlineStatus(a.deadline, now).Overdue?
  }

  /** The status badge of a submitted assignment; none when not submitted.
      The id set and `find` agree, so the "Submitted" fallback for a missing
      record is only reached through a pending submission. */
  function SubmissionBadge(a: Assignment, studentSubs: seq<Submission>): (r: Option<string>)
    ensures r.None? <==> FirstSubmissionFor(studentSubs, a.id).None?
    ensures r == Some("Accepted") <==> (FirstSubmissionFor(studentSubs, a.id).Some?
                                    && FirstSubmissionFor(studentSubs, a.id).value.status == Accepted)
    ensures r == Some("Rejected") <==> (FirstSubmissionFor(studentSubs, a.id).Some?
                                    && FirstSubmissionFor(studentSubs, a.id).value.status == Rejected)
    ensures r == Some("Submitted") <==> (FirstSubmissionFor(studentSubs, a.id).Some?
                                    && FirstSubmissionFor(studentSubs, a.id).value.status == Pending)
  {
    SubmittedIffFound(studentSubs, a.id);
    if a.id !in SubmittedAssignmentIds(studentSubs) then None
    else
      match FirstSubmissionFor(studentSubs, a.id)
      case Some(s) => Some(if s.status == Accepted then "Accepted"
                           else if s.status == Rejected then "Rejected"
                           else "Submitted")
      case None => Some("Submitted")
  }

  /** The id set and `find` agree on whether the student submitted. */
  lemma SubmittedIffFound(studentSubs: seq<Submission>, assignmentId: string)
    ensures assignmentId in SubmittedAssignmentIds(studentSubs)
        <==> FirstSubmissionFor(studentSubs, assignmentId).Some?
  {
    var p := (s: Submission) => s.assignmentId == assignmentId;
    if assignmentId in SubmittedAssignmentIds(studentSubs) {
      var s :| s in studentSubs && s.assignmentId == assignmentId;
      var i :| 0 <= i < |studentSubs| && studentSubs[i] == s;
      assert p(studentSubs[i]);
    }
  }

  /** Submit shows exactly when nothing was submitted and the deadline has
      not passed; Resubmit exactly when the consulted submission was
      rejected and the deadline has not passed; never both. */
  lemma ButtonRules(a: Assignment, studentSubs: seq<Submission>, now: int)
    ensures ShowSubmit(a, studentSubs, now)
        <==> FirstSubmissionFor(studentSubs, a.id).None? && now <= a.deadline
    ensures ShowResubmit(a, studentSubs, now)
        <==> && FirstSubmissionFor(studentSubs, a.id).Some?
             && FirstSubmissionFor(studentSubs, a.id).value.status == Rejected
             && now <= a.deadline
    ensures !(ShowSubmit(a, studentSubs, now) && ShowResubmit(a, studentSubs, now))
  {
    SubmittedIffFound(studentSubs, a.id);
  }

  /** Once the student has a submission for the assignment, further
      submissions (a resubmission among them) change neither the badge nor
      the buttons: the card keeps looking at the first one. */
  lemma LaterSubmissionsDoNotChangeCard(a: Assignment, studentSubs: seq<Submission>,
                                        later: seq<Submission>, now: int)
    requires FirstSubmissionFor(studentSubs, a.id).Some?
    ensures FirstSubmissionFor(studentSubs + later, a.id) == FirstSubmissionFor(studentSubs, a.id)
    ensures ShowSubmit(a, studentSubs + later, now) == ShowSubmit(a, studentSubs, now)
    ensures ShowResubmit(a, studentSubs + later, now) == ShowResubmit(a, studentSubs, now)
    ensures SubmissionBadge(a, studentSubs + later) == SubmissionBadge(a, studentSubs)
  {
    FindAppend(studentSubs, later, (s: Submission) => s.assignmentId == a.id);
    SubmittedIffFound(studentSubs, a.id);
    SubmittedIffFound(studentSubs + later, a.id);
  }

  // ---------------------------------------------------------------------
  // Summary counts

  /** The "Submitted" figure: distinct assignment ids among the student's submissions. */
  function SubmittedCount(studentSubs: seq<Submission>): nat {
    |SubmittedAssignmentIds(studentSubs)|
  }

  lemma SubmittedCountPositive(studentSubs: seq<Submission>)
    ensures studentSubs == [] <==> SubmittedCount(studentSubs) == 0
  {
    if studentSubs != [] {
      assert studentSubs[0].assignmentId in SubmittedAssignmentIds(studentSubs);
    }
  }

  /** The "Pending" figure as the page computes it: total minus submitted. */
  function PendingCountAsWritten(assignments: seq<Assignment>, studentSubs: seq<Submission>): int {
    |assignments| - SubmittedCount(studentSubs)
  }

  /** Two submissions, one to the only assignment and one to an id the
      collection does not hold, make the page show "Pending: -1". */
  lemma PendingCountAsWrittenCanBeNegative()
    ensures var a := Assignment("1", "T", "D", 0, "1");
            var s1 := Submission("1", "1", "2", "u", None, None, Pending, 0, None, None);
            var s2 := Submission("2", "9", "2", "u", None, None, Pending, 0, None, None);
            PendingCountAsWritten([a], [s1, s2]) == -1
  {
    var s1 := Submission("1", "1", "2", "u", None, None, Pending, 0, None, None);
    var s2 := Submission("2", "9", "2", "u", None, None, Pending, 0, None, None);
    assert SubmittedAssignmentIds([s1, s2]) == {"1", "9"};
  }

  /** The "Pending" figure as evidently intended: the listed assignments the
      student has not submitted to. */
  function PendingCount(assignments: seq<Assignment>, studentSubs: seq<Submission>): nat {
    |Filter(assignments, (a: Assignment) => a.id !in SubmittedAssignmentIds(studentSubs))|
  }

  /** The intended figure never exceeds the total, is below it as soon as
      one listed assignment was submitted to, and equals it when none was. */
  lemma {:induction false} PendingCountBounds(assignments: seq<Assignment>, studentSubs: seq<Submission>)
    ensures PendingCount(assignments, studentSubs) <= |assignments|
    ensures (exists i :: 0 <= i < |assignments| && assignments[i].id in SubmittedAssignmentIds(studentSubs))
        <==> PendingCount(assignments, studentSubs) < |assignments|
  {
    var ids := SubmittedAssignmentIds(studentSubs);
    var notSubmitted := (a: Assignment) => a.id !in ids;
    var r := Filter(assignments, notSubmitted);
    if exists i :: 0 <= i < |assignments| && assignments[i].id in ids {
      var i :| 0 <= i < |assignments| && assignments[i].id in ids;
      FilterComplement(assignments, (a: Assignment) => a.id in ids, notSubmitted);
      assert assignments[i] in Filter(assignments, (a: Assignment) => a.id in ids);
    } else {
      FilterAllTrue(assignments, notSubmitted);
    }
  }

  /** The ids of a collection of assignments. */
  function IdSet(assignments: seq<Assignment>): (r: set<string>)
    ensures forall i :: 0 <= i < |assignments| ==> assignments[i].id in r
    ensures forall id :: id in r ==> exists i :: 0 <= i < |assignments| && assignments[i].id == id
  {
    if assignments == [] then {} else {assignments[0].id} + IdSet(assignments[1..])
  }

  /** With distinct ids, the assignments whose id lies in `ids` are as many
      as the ids of the collection that lie in `ids`. */
  lemma {:induction false} CountIdsIn(assignments: seq<Assignment>, ids: set<string>)
    requires DistinctAssignmentIds(assignments)
    ensures |Filter(assignments, (a: Assignment) => a.id in ids)| == |ids * IdSet(assignments)|
  {
    if assignments != [] {
      var a := assignments[0];
      var rest := assignments[1..];
      DistinctTail(assignments);
      CountIdsIn(rest, ids);
      assert IdSet(assignments) == {a.id} + IdSet(rest);
      IntersectInsert(ids, a.id, IdSet(rest));
    }
  }

  /** Dropping the first assignment keeps the ids distinct, and the first id
      does not reappear. */
  lemma DistinctTail(assignments: seq<Assignment>)
    requires assignments != [] && DistinctAssignmentIds(assignments)
    ensures DistinctAssignmentIds(assignments[1..])
    ensures assignments[0].id !in IdSet(assignments[1..])
  {
    var rest := assignments[1..];
    forall i, j | 0 <= i < j < |rest| ensures rest[i].id != rest[j].id {
      assert rest[i] == assignments[i + 1] && rest[j] == assignments[j + 1];
    }
    forall k | 0 <= k < |rest| ensures rest[k].id != assignments[0].id {
      assert rest[k] == assignments[k + 1];
    }
  }

  lemma IntersectInsert(ids: set<string>, x: string, rest: set<string>)
    requires x !in rest
    ensures |ids * ({x} + rest)| == |ids * rest| + (if x in ids then 1 else 0)
  {
    if x in ids {
      assert ids * ({x} + rest) == {x} + ids * rest;
    } else {
      assert ids * ({x} + rest) == ids * rest;
    }
  }

  /** When the student's submissions all name listed assignments and the
      listed ids are distinct, the page's figure is the intended one. */
  lemma PendingCountAgreesWhenReferencesResolve(assignments: seq<Assignment>, studentSubs: seq<Submission>)
    requires DistinctAssignmentIds(assignments)
    requires ReferencesResolve(assignments, studentSubs)
    ensures PendingCount(assignments, studentSubs) == PendingCountAsWritten(assignments, studentSubs)
  {
    var ids := SubmittedAssignmentIds(studentSubs);
    var submitted := (a: Assignment) => a.id in ids;
    var notSubmitted := (a: Assignment) => a.id !in ids;
    FilterComplement(assignments, submitted, notSubmitted);
    CountIdsIn(assignments, ids);
    assert ids <= IdSet(assignments) by {
      forall id | id in ids ensures id in IdSet(assignments) {
        var s :| s in studentSubs && s.assignmentId == id;
        var i :| 0 <= i < |studentSubs| && studentSubs[i] == s;
        var j :| 0 <= j < |assignments| && assignments[j].id == studentSubs[i].assignmentId;
      }
    }
    assert ids * IdSet(assignments) == ids;
  }
}
