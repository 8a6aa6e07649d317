/** The entities of the portal: roles, submission states, users, uploaded
    files ("artifacts") and deadlines. Optional TypeScript properties are
    `Option`s. */
module Types {
  import opened Wrappers

  /** Exactly four roles. */
  datatype UserRole = Admin | Head | CoHead | Student

  /** Exactly three review states; a file may also have none (`status?`). */
  datatype SubmissionStatus = Pending | Approved | Rejected

  /** Exactly three deadline priorities. */
  datatype Priority = Low | Medium | High

  /** The string value each role has in the enum and in the `role` column. */
  function RoleName(r: UserRole): string
  {
    match r
    case Admin => "ADMIN"
    case Head => "HEAD"
    case CoHead => "CO_HEAD"
    case Student => "STUDENT"
  }

  /** Reads a role back from its string value; any other string is no role. */
  function ParseRole(s: string): Option<UserRole>
  {
    if s == "ADMIN" then Some(Admin)
    else if s == "HEAD" then Some(Head)
    else if s == "CO_HEAD" then Some(CoHead)
    else if s == "STUDENT" then Some(Student)
    else None
  }

  lemma RoleNameRoundTrip(r: UserRole, s: string)
    ensures ParseRole(RoleName(r)) == Some(r)
    ensures ParseRole(s) == Some(r) ==> RoleName(r) == s
  {
  }

  function StatusName(st: SubmissionStatus): string
  {
    match st
    case Pending => "PENDING"
    case Approved => "APPROVED"
    case Rejected => "REJECTED"
  }

  function ParseStatus(s: string): Option<SubmissionStatus>
  {
    if s == "PENDING" then Some(Pending)
    else if s == "APPROVED" then Some(Approved)
    else if s == "REJECTED" then Some(Rejected)
    else None
  }

  lemma StatusNameRoundTrip(st: SubmissionStatus, s: string)
    ensures ParseStatus(StatusName(st)) == Some(st)
    ensures ParseStatus(s) == Some(st) ==> StatusName(st) == s
  {
  }

  function PriorityName(p: Priority): string
  {
    match p
    case Low => "low"
    case Medium => "medium"
    case High => "high"
  }

  function ParsePriority(s: string): Option<Priority>
  {
    if s == "low" then Some(Low)
    else if s == "medium" then Some(Medium)
    else if s == "high" then Some(High)
    else None
  }

  lemma PriorityNameRoundTrip(p: Priority, s: string)
    ensures ParsePriority(PriorityName(p)) == Some(p)
    ensures ParsePriority(s) == Some(p) ==> PriorityName(p) == s
  {
  }

  /** JavaScript truthiness of an optional boolean: only `true` is truthy,
      so `flag`, `!!flag` and `flag === true` all agree on it. */
  predicate Truthy(b: Option<bool>)
  {
    b == Some(true)
  }

  datatype User = User(
    id: string,
    name: string,
    email: string,
    role: UserRole,
    enrollmentId: Option<string>,
    semester: Option<int>,
    section: Option<string>,
    avatar: Option<string>,
    bio: Option<string>,
    joinDate: Option<string>,
    lastActive: Option<string>,
    canUpload: Option<bool>,
    isSubmitted: Option<bool>,
    isVerified: Option<bool>)

  /** An uploaded artifact. `ownerRole` is the owner's role when it uploaded. */
  datatype CodexFile = CodexFile(
    id: string,
    name: string,
    size: int,
    fileType: string,
    ownerId: string,
    ownerRole: UserRole,
    createdAt: string,
    isImmutable: bool,
    status: Option<SubmissionStatus>,
    rejectionReason: Option<string>,
    url: string)

  datatype Deadline = Deadline(
    id: string,
    title: string,
    dueDate: string,
    description: string,
    priority: Priority)

  /** The `id` of a user, as `find(u => u.id === id)` compares it. */
  function UserId(u: User): string { u.id }

  function FileId(f: CodexFile): string { f.id }
}
