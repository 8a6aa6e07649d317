/** The student registry (components/UserManagement.tsx): the filtered
    student listing and the registration of a new student. */
module Roster {
  import opened Wrappers
  import opened Types
  import opened Seqs
  import opened App
  import Permissions
  import Verification
  import Text

  /** `students`: the users whose role is student. */
  function Students(users: seq<User>): seq<User>
  {
    Filter(users, (u: User) => u.role == Student)
  }

  /** A drop-down filter: "ALL", or one value. */
  datatype Choice<T> = AnyValue | Exactly(value: T)

  /** `filter === 'ALL' || field === filter`: an absent field never equals a value. */
  predicate Admits<T(==)>(c: Choice<T>, field: Option<T>)
  {
    c.AnyValue? || field == Some(c.value)
  }

  predicate Listed(s: User, semester: Choice<int>, section: Choice<string>, term: string)
  {
    Admits(semester, s.semester) && Admits(section, s.section) && Verification.MatchesSearch(s, term)
  }

  /** `filteredStudents`. */
  function FilteredStudents(users: seq<User>, semester: Choice<int>, section: Choice<string>, term: string): seq<User>
  {
    Filter(Students(users), (s: User) => Listed(s, semester, section, term))
  }

  /** A user is listed exactly when it is a student that passes all three
      filters; the listing keeps the order of the student list. */
  lemma FilteredStudentsSpec(users: seq<User>, semester: Choice<int>, section: Choice<string>, term: string)
    ensures forall u :: u in FilteredStudents(users, semester, section, term) <==>
      u in users && u.role == Student && Admits(semester, u.semester) && Admits(section, u.section) &&
      Verification.MatchesSearch(u, term)
    ensures IsSubsequence(FilteredStudents(users, semester, section, term), Students(users))
    ensures IsSubsequence(Students(users), users)
  {
    var isStudent := (u: User) => u.role == Student;
    var listed := (s: User) => Listed(s, semester, section, term);
    FilterMembership(users, isStudent);
    FilterMembership(Students(users), listed);
    FilterIsSubsequence(users, isStudent);
    FilterIsSubsequence(Students(users), listed);
  }

  /** With every filter at "ALL" and an empty search, every student is listed. */
  lemma NoFilterListsEveryStudent(users: seq<User>)
    ensures FilteredStudents(users, AnyValue, AnyValue, "") == Students(users)
  {
    var listed := (s: User) => Listed(s, AnyValue, AnyValue, "");
    forall i | 0 <= i < |Students(users)| ensures listed(Students(users)[i]) {
      Text.ContainsEmpty(Text.Lower(Students(users)[i].name));
    }
    FilterAll(Students(users), listed);
  }

  /** The registration form. */
  datatype StudentForm = StudentForm(name: string, email: string, enrollmentId: string, semester: int, section: string)

  const BlankStudentForm: StudentForm := StudentForm("", "", "", 1, "A")

  const AvatarService: string := "https://api.dicebear.com/7.x/avataaars/svg?seed="

  /** The row `handleAddUser` inserts; `id` is the key the store assigns and
      `joinDate` the current date. */
  function NewStudentRow(id: string, form: StudentForm, joinDate: string): ProfileRow
  {
    ProfileRow(id, form.name, form.email, Student, Some(form.enrollmentId), Some(form.semester),
               Some(form.section), Some(AvatarService + form.enrollmentId), None, Some(joinDate), None,
               Some(false), Some(false), Some(false))
  }

  /** A registered student starts as a student with every compliance flag
      false and no upload right; its avatar is seeded by its enrollment id,
      and the form's fields are stored unchanged. */
  lemma NewStudentRowFacts(id: string, form: StudentForm, joinDate: string)
    ensures var u := MapProfile(NewStudentRow(id, form, joinDate));
      && u.role == Student
      && !Permissions.CanUpload(u)
      && !Truthy(u.isSubmitted) && !Truthy(u.isVerified)
      && u.name == form.name && u.email == form.email
      && u.enrollmentId == Some(form.enrollmentId)
      && u.semester == Some(form.semester) && u.section == Some(form.section)
      && u.avatar.Some? && u.avatar.value[|AvatarService|..] == form.enrollmentId
      && u in Students([u])
  {
  }

  class RosterPage {
    var newUser: StudentForm
    var showAddModal: bool
    var isRegistering: bool

    constructor ()
      ensures newUser == BlankStudentForm && !showAddModal && !isRegistering
    {
      newUser := BlankStudentForm;
      showAddModal := false;
      isRegistering := false;
    }

    method OpenAddModal()
      modifies this
      ensures showAddModal && newUser == old(newUser) && isRegistering == old(isRegistering)
    {
      showAddModal := true;
    }

    method EditForm(form: StudentForm)
      modifies this
      ensures newUser == form && showAddModal == old(showAddModal) && isRegistering == old(isRegistering)
    {
      newUser := form;
    }

    /** `handleAddUser`: inserts the form as a student row; on success the
        dialog closes and the form is reset, on failure both stay as they
        were. Registration is over either way. */
    method HandleAddUser(db: Database, newId: string, joinDate: string) returns (ok: bool)
      requires db.Valid()
      modifies this, db
      ensures db.Valid()
      ensures ok <==> newId !in old(db.profiles)
      ensures db.profiles == if ok then old(db.profiles)[newId := NewStudentRow(newId, old(newUser), joinDate)] else old(db.profiles)
      ensures ok ==> !showAddModal && newUser == BlankStudentForm
      ensures !ok ==> showAddModal == old(showAddModal) && newUser == old(newUser)
      ensures !isRegistering
      ensures db.files == old(db.files) && db.deadlines == old(db.deadlines)
    {
      isRegistering := true;
      var row := NewStudentRow(newId, newUser, joinDate);
      ok := db.InsertProfile(row);
      if ok {
        showAddModal := false;
        newUser := BlankStudentForm;
      }
      isRegistering := false;
    }
  }
}
