/** The command hierarchy page (components/StaffManagement.tsx): the staff
    listing, promotion and demotion, removal and the add-staff form. */
module Staff {
  import opened Types
  import opened Seqs
  import opened App

  predicate IsStaffRole(role: UserRole)
  {
    role == Head || role == CoHead
  }

  /** `staff`: heads and co-heads, in list order; admins are not listed. */
  function StaffOf(users: seq<User>): seq<User>
  {
    Filter(users, (u: User) => IsStaffRole(u.role))
  }

  /** The listing holds exactly the heads and co-heads of the user list. */
  lemma StaffOfSpec(users: seq<User>)
    ensures forall u :: u in StaffOf(users) <==> u in users && (u.role == Head || u.role == CoHead)
    ensures forall u :: u in StaffOf(users) ==> u.role != Admin && u.role != Student
  {
    FilterMembership(users, (u: User) => IsStaffRole(u.role));
  }

  /** The role button's target: a co-head is promoted to head, anyone else
      listed is demoted to co-head. */
  function TargetRole(role: UserRole): (r: UserRole)
    ensures IsStaffRole(r)
    ensures IsStaffRole(role) ==> r != role
  {
    if role == CoHead then Head else CoHead
  }

  /** On listed members the button is an involution: pressing it on the
      new role gives back the old one. */
  lemma TargetRoleSwaps(role: UserRole)
    requires IsStaffRole(role)
    ensures TargetRole(TargetRole(role)) == role
  {
  }

  /** Pressing the role button twice on a stored staff member leaves the
      profile table as it was. */
  lemma StaffRoleActionTwice(profiles: map<string, ProfileRow>, id: string)
    requires id in profiles && IsStaffRole(profiles[id].role)
    ensures var once := WithRole(profiles, id, TargetRole(profiles[id].role));
      WithRole(once, id, TargetRole(once[id].role)) == profiles
  {
    var row := profiles[id];
    var once := WithRole(profiles, id, TargetRole(row.role));
    TargetRoleSwaps(row.role);
    assert once[id].role == TargetRole(row.role);
    assert once[id].(role := row.role) == row;
  }

  /** The add-staff form. */
  datatype StaffForm = StaffForm(name: string, email: string, role: UserRole)

  const BlankStaffForm: StaffForm := StaffForm("", "", CoHead)

  class StaffPage {
    var showAddModal: bool
    var newStaff: StaffForm

    constructor ()
      ensures !showAddModal && newStaff == BlankStaffForm
    {
      showAddModal := false;
      newStaff := BlankStaffForm;
    }

    method OpenAddModal()
      modifies this
      ensures showAddModal && newStaff == old(newStaff)
    {
      showAddModal := true;
    }

    method EditForm(form: StaffForm)
      modifies this
      ensures newStaff == form && showAddModal == old(showAddModal)
    {
      newStaff := form;
    }

    /** `handleAddSubmit`: the shell's handler does nothing with the form,
        so no table is written; the dialog closes and the form is reset. */
    method HandleAddSubmit()
      modifies this
      ensures !showAddModal && newStaff == BlankStaffForm
    {
      showAddModal := false;
      newStaff := BlankStaffForm;
    }

    /** The promote/demote button of a listed member. */
    method ChangeRole(db: Database, member: User)
      requires db.Valid()
      modifies db
      ensures db.Valid()
      ensures db.profiles == WithRole(old(db.profiles), member.id, TargetRole(member.role))
      ensures db.files == old(db.files) && db.deadlines == old(db.deadlines)
    {
      db.UpdateStaffRole(member.id, TargetRole(member.role));
    }

    /** The remove button: deletes the member's row only when confirmed. */
    method Remove(db: Database, member: User, confirmed: bool)
      requires db.Valid()
      modifies db
      ensures db.Valid()
      ensures db.profiles == if confirmed then old(db.profiles) - {member.id} else old(db.profiles)
      ensures member.id !in old(db.profiles) ==> db.profiles == old(db.profiles)
      ensures db.files == old(db.files) && db.deadlines == old(db.deadlines)
    {
      if confirmed {
        db.RemoveStaff(member.id);
      }
    }
  }
}
