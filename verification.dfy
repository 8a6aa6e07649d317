/** The verification tracker (components/VerificationTracker.tsx): the
    searchable, sorted student listing, the compliance counts and the
    report rows. */
module Verification {
  import opened Wrappers
  import opened Types
  import opened Seqs
  import opened Text
  import opened Sorting
  import Csv

  /** The search test: the lower-cased term occurs in the lower-cased name
      or, when there is one, in the lower-cased enrollment id. */
  predicate MatchesSearch(u: User, term: string)
  {
    Contains(Lower(u.name), Lower(term)) ||
    (u.enrollmentId.Some? && Contains(Lower(u.enrollmentId.value), Lower(term)))
  }

  /** The sort key `s.enrollmentId || ''`. */
  function EnrollmentKey(u: User): string
  {
    OrElse(u.enrollmentId, "")
  }

  /** `sortedStudents`: the matching students, ascending by enrollment id. */
  function SortedStudents(students: seq<User>, term: string): seq<User>
  {
    SortBy(Filter(students, u => MatchesSearch(u, term)), EnrollmentKey)
  }

  /** The listing holds exactly the matching students, each as often as it
      was given, in ascending enrollment-id order. */
  lemma SortedStudentsSpec(students: seq<User>, term: string)
    ensures multiset(SortedStudents(students, term)) == multiset(Filter(students, (u: User) => MatchesSearch(u, term)))
    ensures forall u :: u in SortedStudents(students, term) <==> u in students && MatchesSearch(u, term)
    ensures |SortedStudents(students, term)| <= |students|
    ensures SortedBy(SortedStudents(students, term), EnrollmentKey)
  {
    var p := (u: User) => MatchesSearch(u, term);
    FilterMembership(students, p);
    SortByMembership(Filter(students, p), EnrollmentKey);
    SortBySorted(Filter(students, p), EnrollmentKey);
  }

  /** An empty search term keeps every student, each as often as it was given. */
  lemma EmptySearchKeepsEveryone(students: seq<User>)
    ensures multiset(SortedStudents(students, "")) == multiset(students)
  {
    var p := (u: User) => MatchesSearch(u, "");
    forall u | u in students ensures p(u) {
      ContainsEmpty(Lower(u.name));
    }
    FilterAll(students, p);
  }

  /** `totalSubmitted`. */
  function TotalSubmitted(students: seq<User>): (n: nat)
    ensures n <= |students|
  {
    |Filter(students, (s: User) => Truthy(s.isSubmitted))|
  }

  /** `totalVerified`. */
  function TotalVerified(students: seq<User>): (n: nat)
    ensures n <= |students|
  {
    |Filter(students, (s: User) => Truthy(s.isVerified))|
  }

  /** Where every student respects "verified only if submitted", there are
      no more verifications than submissions. */
  lemma {:induction false} VerifiedAtMostSubmitted(students: seq<User>)
    requires forall i :: 0 <= i < |students| ==> Truthy(students[i].isVerified) ==> Truthy(students[i].isSubmitted)
    ensures TotalVerified(students) <= TotalSubmitted(students)
  {
    if students != [] {
      VerifiedAtMostSubmitted(students[1..]);
      assert TotalVerified(students) == (if Truthy(students[0].isVerified) then 1 else 0) + TotalVerified(students[1..]);
      assert TotalSubmitted(students) == (if Truthy(students[0].isSubmitted) then 1 else 0) + TotalSubmitted(students[1..]);
    }
  }

  /** `students.length || 1`: the denominator of both percentages. */
  function PercentDenominator(count: nat): (d: nat)
    ensures d > 0
    ensures count > 0 ==> d == count
  {
    if count == 0 then 1 else count
  }

  /** The verified toggle is enabled only for a submitted student. */
  predicate VerifyToggleEnabled(s: User)
  {
    Truthy(s.isSubmitted)
  }

  /** The completion badge shows when both flags are set. */
  predicate CompletionBadge(s: User)
  {
    Truthy(s.isSubmitted) && Truthy(s.isVerified)
  }

  /** A student with the badge always has its verified toggle enabled; a
      student who is not submitted never shows the badge. */
  lemma BadgeNeedsSubmission(s: User)
    ensures CompletionBadge(s) ==> VerifyToggleEnabled(s)
    ensures !Truthy(s.isSubmitted) ==> !CompletionBadge(s) && !VerifyToggleEnabled(s)
  {
  }

  const ReportHeader: seq<string> := ["Enrollment ID", "Student Name", "Submitted", "Verified", "Join Date"]

  function YesNo(b: Option<bool>): string
  {
    if Truthy(b) then "YES" else "NO"
  }

  /** One report row; a missing or empty enrollment id or join date reads N/A. */
  function ReportRow(s: User): seq<string>
  {
    [OrElse(s.enrollmentId, "N/A"), s.name, YesNo(s.isSubmitted), YesNo(s.isVerified), OrElse(s.joinDate, "N/A")]
  }

  function ReportRows(students: seq<User>, term: string): seq<seq<string>>
  {
    var listed := SortedStudents(students, term);
    seq(|listed|, k requires 0 <= k < |listed| => ReportRow(listed[k]))
  }

  /** `handleExport`: the header line, then one line per listed student in
      listing order; with nobody listed, the header line and a line break. */
  function Report(students: seq<User>, term: string): (r: string)
    ensures |r| > |Csv.DataPrefix| && r[..|Csv.DataPrefix|] == Csv.DataPrefix
    ensures SortedStudents(students, term) != [] ==>
      r == Csv.DataPrefix + Join([Csv.Line(ReportHeader)] + Csv.Lines(ReportRows(students, term)), "\n")
    ensures SortedStudents(students, term) == [] ==> r[|Csv.DataPrefix|..] == Csv.Line(ReportHeader) + "\n"
  {
    Csv.Document(ReportHeader, ReportRows(students, term))
  }

  /** The report has a five-column header and one five-column row per listed
      student, in listing order; flags read YES or NO, and an enrollment id
      or join date is written as it is unless it is missing or empty, which
      reads N/A. */
  lemma ReportShape(students: seq<User>, term: string)
    ensures |ReportHeader| == 5
    ensures var listed := SortedStudents(students, term);
      var rows := ReportRows(students, term);
      && |rows| == |listed|
      && forall k :: 0 <= k < |rows| ==>
           && |rows[k]| == 5
           && rows[k][1] == listed[k].name
           && (rows[k][2] == "YES" <==> Truthy(listed[k].isSubmitted))
           && (rows[k][3] == "YES" <==> Truthy(listed[k].isVerified))
           && rows[k][2] in {"YES", "NO"} && rows[k][3] in {"YES", "NO"}
           && (listed[k].enrollmentId.None? || listed[k].enrollmentId == Some("") ==> rows[k][0] == "N/A")
           && (listed[k].enrollmentId.Some? && listed[k].enrollmentId.value != "" ==> rows[k][0] == listed[k].enrollmentId.value)
           && (listed[k].joinDate.None? || listed[k].joinDate == Some("") ==> rows[k][4] == "N/A")
           && (listed[k].joinDate.Some? && listed[k].joinDate.value != "" ==> rows[k][4] == listed[k].joinDate.value)
  {
  }
}
