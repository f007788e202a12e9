/** The student's own submission history: newest first, the status figures,
    one card per submission whose assignment is known, the feedback panel
    and the Resubmit link of each card. */
module MySubmissionsPage {
  import opened Collections
  import opened Types
  import opened Text
  import opened DataContext
  import opened AssignmentsPage
  import opened SubmitPage
  import opened SubmissionsPage

  /** The student's submissions, newest first. */
  function MySubmissions(submissions: seq<Submission>, studentId: string): (r: seq<Submission>)
    ensures multiset(r) == multiset(SubmissionsByStudent(submissions, studentId))
    ensures forall s :: s in r <==> s in submissions && s.studentId == studentId
    ensures forall i, j :: 0 <= i < j < |r| ==> r[i].submittedAt >= r[j].submittedAt
  {
    var r := SortNewestFirst(SubmissionsByStudent(submissions, studentId));
    assert forall s :: s in r <==> s in multiset(r);
    r
  }

  /** The four figures, taken over every submission of the student. */
  function MyStats(submissions: seq<Submission>, studentId: string): Stats {
    StatusStats(SubmissionsByStudent(submissions, studentId))
  }

  datatype Card = Card(submission: Submission, assignment: Assignment)

  predicate HasCard(assignments: seq<Assignment>, s: Submission) {
    AssignmentById(assignments, s.assignmentId).Some?
  }

  /** The listed submissions whose assignment is found, in list order. */
  function CardedSubmissions(listed: seq<Submission>, assignments: seq<Assignment>): seq<Submission>
    decreases |listed|
  {
    if listed == [] then []
    else if HasCard(assignments, listed[0]) then [listed[0]] + CardedSubmissions(listed[1..], assignments)
    else CardedSubmissions(listed[1..], assignments)
  }

  /** The carded submissions are what `filter` keeps of the listing. */
  lemma {:induction false} CardedSubmissionsIsFilter(listed: seq<Submission>, assignments: seq<Assignment>)
    ensures CardedSubmissions(listed, assignments) == Filter(listed, (s: Submission) => HasCard(assignments, s))
  {
    if listed != [] {
      CardedSubmissionsIsFilter(listed[1..], assignments);
    }
  }

  /** `c` is the card of `s`: it holds `s` and the assignment found for it. */
  predicate CardShows(assignments: seq<Assignment>, c: Card, s: Submission) {
    c.submission == s && AssignmentById(assignments, s.assignmentId) == Some(c.assignment)
  }

  /** One card per listed submission whose assignment is found, in list
      order; any other submission renders nothing. */
  function RenderedCards(listed: seq<Submission>, assignments: seq<Assignment>): (r: seq<Card>)
    ensures |r| <= |listed|
    ensures forall k :: 0 <= k < |r| ==>
              && r[k].submission in listed
              && r[k].assignment in assignments
              && r[k].assignment.id == r[k].submission.assignmentId
              && HasCard(assignments, r[k].submission)
    decreases |listed|
  {
    if listed == [] then []
    else
      var rest := RenderedCards(listed[1..], assignments);
      match AssignmentById(assignments, listed[0].assignmentId)
      case Some(a) => [Card(listed[0], a)] + rest
      case None => rest
  }

  /** The cards are, position by position, the listed submissions whose
      assignment is found, each with the assignment `getAssignmentById`
      finds for it: one card per such submission, in list order. */
  lemma {:induction false} RenderedCardsFollowList(listed: seq<Submission>, assignments: seq<Assignment>)
    ensures |RenderedCards(listed, assignments)| == |CardedSubmissions(listed, assignments)|
    ensures forall k :: 0 <= k < |RenderedCards(listed, assignments)| ==>
              CardShows(assignments, RenderedCards(listed, assignments)[k], CardedSubmissions(listed, assignments)[k])
  {
    if listed != [] {
      var r := RenderedCards(listed, assignments);
      var c := CardedSubmissions(listed, assignments);
      var rest := RenderedCards(listed[1..], assignments);
      var carded := CardedSubmissions(listed[1..], assignments);
      RenderedCardsFollowList(listed[1..], assignments);
      var found := AssignmentById(assignments, listed[0].assignmentId);
      if found.Some? {
        ConsPairwise((d: Card, t: Submission) => CardShows(assignments, d, t),
                     Card(listed[0], found.value), listed[0], rest, carded);
        assert r == [Card(listed[0], found.value)] + rest;
        assert c == [listed[0]] + carded;
      } else {
        assert r == rest;
        assert c == carded;
      }
    }
  }

  /** Every listed submission gets its card exactly when none is skipped. */
  lemma CardCountIffAllShown(listed: seq<Submission>, assignments: seq<Assignment>)
    ensures |RenderedCards(listed, assignments)| == |listed|
        <==> forall i :: 0 <= i < |listed| ==> HasCard(assignments, listed[i])
  {
    RenderedCardsFollowList(listed, assignments);
    CardedSubmissionsIsFilter(listed, assignments);
    FilterKeepsLengthIffAll(listed, (s: Submission) => HasCard(assignments, s));
  }

  /** `getAssignmentById` finds something exactly when the id is in the collection. */
  lemma HasCardIffResolves(assignments: seq<Assignment>, s: Submission)
    ensures HasCard(assignments, s) <==> exists j :: 0 <= j < |assignments| && assignments[j].id == s.assignmentId
  {
  }

  /** Some card of `cards` shows `s`. */
  predicate CardOf(cards: seq<Card>, s: Submission) {
    exists k :: 0 <= k < |cards| && cards[k].submission == s
  }

  /** A listed submission has a card exactly when its assignment is found. */
  lemma {:induction false} CardShownIffAssignmentFound(listed: seq<Submission>, assignments: seq<Assignment>,
                                                       s: Submission)
    requires s in listed
    ensures CardOf(RenderedCards(listed, assignments), s) <==> HasCard(assignments, s)
  {
    var r := RenderedCards(listed, assignments);
    var rest := RenderedCards(listed[1..], assignments);
    var found := AssignmentById(assignments, listed[0].assignmentId);
    if found.Some? {
      var c := Card(listed[0], found.value);
      assert r == [c] + rest;
      if s == listed[0] {
        assert r[0].submission == s;
      } else {
        CardShownIffAssignmentFound(listed[1..], assignments, s);
        CardOfCons(c, rest, s);
      }
    } else {
      assert r == rest;
      if s == listed[0] {
        assert forall k :: 0 <= k < |rest| ==> HasCard(assignments, rest[k].submission);
      } else {
        CardShownIffAssignmentFound(listed[1..], assignments, s);
      }
    }
  }

  /** A card for another submission in front does not change whether `s` has one. */
  lemma CardOfCons(c: Card, rest: seq<Card>, s: Submission)
    requires c.submission != s
    ensures CardOf([c] + rest, s) <==> CardOf(rest, s)
  {
    var r := [c] + rest;
    if CardOf(r, s) {
      var k :| 0 <= k < |r| && r[k].submission == s;
      assert rest[k - 1].submission == s;
    }
    if CardOf(rest, s) {
      var k :| 0 <= k < |rest| && rest[k].submission == s;
      assert r[k + 1].submission == s;
    }
  }

  /** Two listings with the same elements skip a card in one exactly when
      they skip one in the other. */
  lemma SameElementsSameSkips(listed: seq<Submission>, mine: seq<Submission>, assignments: seq<Assignment>)
    requires multiset(listed) == multiset(mine)
    ensures |listed| == |mine|
    ensures (forall i :: 0 <= i < |listed| ==> HasCard(assignments, listed[i]))
        <==> (forall i :: 0 <= i < |mine| ==> HasCard(assignments, mine[i]))
  {
    assert |multiset(listed)| == |multiset(mine)|;
    forall i | 0 <= i < |listed| ensures listed[i] in mine {
      assert listed[i] in multiset(listed);
    }
    forall i | 0 <= i < |mine| ensures mine[i] in listed {
      assert mine[i] in multiset(mine);
    }
  }

  /** No card is skipped exactly when every submission names a stored assignment. */
  lemma NoSkipsIffReferencesResolve(mine: seq<Submission>, assignments: seq<Assignment>)
    ensures (forall i :: 0 <= i < |mine| ==> HasCard(assignments, mine[i]))
        <==> ReferencesResolve(assignments, mine)
  {
    if ReferencesResolve(assignments, mine) {
      forall i | 0 <= i < |mine| ensures HasCard(assignments, mine[i]) {
        HasCardIffResolves(assignments, mine[i]);
      }
    } else {
      var i :| 0 <= i < |mine| && forall j :: 0 <= j < |assignments| ==> assignments[j].id != mine[i].assignmentId;
      HasCardIffResolves(assignments, mine[i]);
    }
  }

  /** The page shows as many cards as the total figure says exactly when
      every submission of the student names an assignment of the store. */
  lemma CardsMatchTotalIffReferencesResolve(assignments: seq<Assignment>, submissions: seq<Submission>,
                                            studentId: string)
    ensures |RenderedCards(MySubmissions(submissions, studentId), assignments)|
              == MyStats(submissions, studentId).total
        <==> ReferencesResolve(assignments, SubmissionsByStudent(submissions, studentId))
  {
    var mine := SubmissionsByStudent(submissions, studentId);
    var listed := MySubmissions(submissions, studentId);
    CardCountIffAllShown(listed, assignments);
    SameElementsSameSkips(listed, mine, assignments);
    NoSkipsIffReferencesResolve(mine, assignments);
  }

  // ---------------------------------------------------------------------
  // Per-card content

  datatype FeedbackPanel = FeedbackShown(text: string) | UnderReview | NoPanel

  /** The feedback block: any non-empty feedback is shown; without it a
      pending submission says it is under review and any other shows nothing. */
  function FeedbackPanelFor(s: Submission): (r: FeedbackPanel)
    ensures r.FeedbackShown? <==> HasText(s.feedback)
    ensures r.FeedbackShown? ==> s.feedback == Some(r.text)
    ensures r.UnderReview? <==> !HasText(s.feedback) && s.status == Pending
    ensures r.NoPanel? <==> !HasText(s.feedback) && s.status != Pending
  {
    if HasText(s.feedback) then FeedbackShown(s.feedback.value)
    else if s.status == Pending then UnderReview
    else NoPanel
  }

  /** After a review the card shows the normalized feedback when there is
      any, and otherwise the under-review note only if the review left the
      status pending. */
  lemma PanelAfterReview(s: Submission, newStatus: Status, feedback: string)
    ensures FeedbackPanelFor(Merge(s, ReviewPatch(newStatus, feedback)))
         == match NormalizedFeedback(feedback)
            case Some(t) => FeedbackShown(t)
            case None => if newStatus == Pending then UnderReview else NoPanel
  {
    ReviewSetsStatusAndFeedback(s, newStatus, feedback);
  }

  /** The Resubmit link: for a rejected submission, the assignment id the
      submit form is opened with. */
  function ResubmitTarget(c: Card): (r: Option<string>)
    ensures r.Some? <==> c.submission.status == Rejected
    ensures r.Some? ==> r.value == c.assignment.id
  {
    if c.submission.status == Rejected then Some(c.assignment.id) else None
  }

  /** The link does not look at the deadline: a rejected submission to an
      overdue assignment still gets it, and the form it opens takes the id
      into its state, where the guard accepts it, although the assignment
      list hides Resubmit and the form's own choices leave the assignment
      out. Whether the rendered select then lets the form be sent is
      component behaviour outside this model. */
  lemma ResubmitLinkIgnoresDeadline()
    ensures var a := Assignment("1", "T", "D", 0, "1");
            var s := Submission("1", "1", "2", "https://example.org", None, Some("Redo"), Rejected, 0, None, None);
            var user := User("2", "S", "s@example.com", Student);
            var cards := RenderedCards([s], [a]);
            && |cards| == 1 && ResubmitTarget(cards[0]) == Some("1")
            && !ShowResubmit(a, [s], 1)
            && a !in AvailableAssignments([a], [s], 1)
            && SubmitGuard("1", "https://example.org", Some(user))
  {
    var a := Assignment("1", "T", "D", 0, "1");
    var s := Submission("1", "1", "2", "https://example.org", None, Some("Redo"), Rejected, 0, None, None);
    assert AssignmentById([a], "1") == Some(a) by {
      assert [a][0].id == "1";
    }
    assert FirstSubmissionFor([s], "1") == Some(s) by {
      assert [s][0].assignmentId == "1";
    }
  }
}
