/** The entities of the portal: users, assignments and submissions.
    Timestamps, which the records keep as ISO strings, are integer
    milliseconds here. */
module Types {
  import opened Collections

  datatype UserRole = Instructor | Student

  /** The string a role is stored and compared as. */
  function RoleName(r: UserRole): string {
    match r
    case Instructor => "instructor"
    case Student => "student"
  }

  /** Reads a stored role: exactly the two role names are accepted. */
  function ParseRole(s: string): (r: Option<UserRole>)
    ensures r.Some? ==> RoleName(r.value) == s
    ensures r.None? <==> forall role: UserRole :: RoleName(role) != s
  {
    if s == "instructor" then Some(Instructor)
    else if s == "student" then Some(Student)
    else None
  }

  lemma RoleNameRoundTrip(r: UserRole)
    ensures ParseRole(RoleName(r)) == Some(r)
  {
  }

  /** The identity the session supplies. */
  datatype User = User(id: string, name: string, email: string, role: UserRole)

  datatype Assignment = Assignment(
    id: string,
    title: string,
    description: string,
    deadline: int,
    instructorId: string)

  datatype Status = Pending | Accepted | Rejected

  /** The string a status is stored, filtered and compared as. */
  function StatusName(s: Status): string {
    match s
    case Pending => "pending"
    case Accepted => "accepted"
    case Rejected => "rejected"
  }

  /** Reads a stored status: exactly the three status names are accepted. */
  function ParseStatus(s: string): (r: Option<Status>)
    ensures r.Some? ==> StatusName(r.value) == s
    ensures r.None? <==> forall st: Status :: StatusName(st) != s
  {
    if s == "pending" then Some(Pending)
    else if s == "accepted" then Some(Accepted)
    else if s == "rejected" then Some(Rejected)
    else None
  }

  lemma StatusNameRoundTrip(s: Status)
    ensures ParseStatus(StatusName(s)) == Some(s)
  {
  }

  /** The display copies a submission keeps of its student and assignment. */
  datatype StudentSnapshot = StudentSnapshot(name: string, email: string)
  datatype AssignmentSnapshot = AssignmentSnapshot(title: string)

  /** `note`, `feedback`, `student` and `assignment` are the optional fields. */
  datatype Submission = Submission(
    id: string,
    assignmentId: string,
    studentId: string,
    submissionUrl: string,
    note: Option<string>,
    feedback: Option<string>,
    status: Status,
    submittedAt: int,
    student: Option<StudentSnapshot>,
    assignment: Option<AssignmentSnapshot>)
}
