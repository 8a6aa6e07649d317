/** The landing page (components/Dashboard.tsx): the user's own files, the
    approval progress and the first deadlines. */
module Dashboard {
  import opened Wrappers
  import opened Types
  import opened Seqs
  import Permissions

  /** The page's `isAdminOrHead`, which, despite its name, lists co-heads
      too; it only picks the colour scheme. */
  predicate IsAdminOrHead(role: UserRole)
  {
    role in [Admin, Head, CoHead]
  }

  /** The dashboard's test is the staff test of the drive: false only for students. */
  lemma DashboardStaffTest(role: UserRole)
    ensures IsAdminOrHead(role) <==> Permissions.IsPrivileged(role)
    ensures !IsAdminOrHead(role) <==> role == Student
  {
  }

  /** The ownership test of `myFiles`. */
  function OwnedBy(user: User): CodexFile -> bool
  {
    (f: CodexFile) => f.ownerId == user.id
  }

  /** `myFiles`. */
  function MyFiles(files: seq<CodexFile>, user: User): seq<CodexFile>
  {
    Filter(files, OwnedBy(user))
  }

  predicate IsApproved(f: CodexFile)
  {
    f.status == Some(Approved)
  }

  /** Owned by `user` and approved, in one test. */
  function OwnedAndApproved(user: User): CodexFile -> bool
  {
    (f: CodexFile) => f.ownerId == user.id && f.status == Some(Approved)
  }

  /** `approvedCount`. */
  function ApprovedCount(files: seq<CodexFile>, user: User): nat
  {
    |Filter(MyFiles(files, user), IsApproved)|
  }

  /** The user's files are exactly those it owns; the count is the number
      of files that it owns and that are approved, and is at most the
      number of its files. */
  lemma ApprovedCountSpec(files: seq<CodexFile>, user: User)
    ensures forall f :: f in MyFiles(files, user) <==> f in files && f.ownerId == user.id
    ensures ApprovedCount(files, user) == |Filter(files, OwnedAndApproved(user))|
    ensures ApprovedCount(files, user) <= |MyFiles(files, user)| <= |files|
  {
    var mine := OwnedBy(user);
    FilterMembership(files, mine);
    FilterFilter(files, mine, IsApproved);
    FilterAgree(files, Both(mine, IsApproved), OwnedAndApproved(user));
  }

  /** The target number of approved files. */
  const ApprovalTarget: nat := 5

  /** `Math.min(100, Math.round((approvedCount / 5) * 100))`; the quotient
      times 100 is a whole number, so it is computed exactly. */
  function ProgressPercent(approved: nat): (r: nat)
    ensures r <= 100
    ensures approved >= ApprovalTarget ==> r == 100
    ensures approved < ApprovalTarget ==> r == 20 * approved
  {
    var percent := approved * 100 / ApprovalTarget;
    if percent < 100 then percent else 100
  }

  /** More approvals never lower the progress. */
  lemma ProgressMonotone(a: nat, b: nat)
    requires a <= b
    ensures ProgressPercent(a) <= ProgressPercent(b)
  {
  }

  /** The "Recent Tactical Alerts": the first three deadlines at most. */
  function RecentDeadlines(deadlines: seq<Deadline>): (r: seq<Deadline>)
    ensures |r| == if |deadlines| < 3 then |deadlines| else 3
    ensures forall i :: 0 <= i < |r| ==> r[i] == deadlines[i]
  {
    Take(deadlines, 3)
  }
}
