/** The deadline calendar (components/DeadlineSystem.tsx): who may add a
    deadline and the add form. */
module Deadlines {
  import opened Types
  import opened App
  import Permissions

  /** `isAdmin`: the add control is shown to admins and heads. */
  predicate CanCreateDeadline(role: UserRole)
  {
    Permissions.IsAdminOrHead(role)
  }

  /** Co-heads and students cannot add deadlines. */
  lemma DeadlineCreators(role: UserRole)
    ensures CanCreateDeadline(role) <==> role == Admin || role == Head
    ensures CanCreateDeadline(role) ==> Permissions.IsPrivileged(role)
  {
  }

  /** The add form; priority is one of the three options. */
  datatype DeadlineForm = DeadlineForm(title: string, description: string, dueDate: string, priority: Priority)

  const BlankDeadlineForm: DeadlineForm := DeadlineForm("", "", "", Medium)

  /** The row inserted for a form; `id` is the key the store assigns. */
  function DeadlineOf(id: string, form: DeadlineForm): (d: Deadline)
    ensures d.id == id && d.title == form.title && d.description == form.description
    ensures d.dueDate == form.dueDate && d.priority == form.priority
  {
    Deadline(id, form.title, form.dueDate, form.description, form.priority)
  }

  class DeadlinePage {
    var showAdd: bool
    var newDeadline: DeadlineForm

    constructor ()
      ensures !showAdd && newDeadline == BlankDeadlineForm
    {
      showAdd := false;
      newDeadline := BlankDeadlineForm;
    }

    method OpenAdd()
      modifies this
      ensures showAdd && newDeadline == old(newDeadline)
    {
      showAdd := true;
    }

    method EditForm(form: DeadlineForm)
      modifies this
      ensures newDeadline == form && showAdd == old(showAdd)
    {
      newDeadline := form;
    }

    /** `handleAdd`: inserts the form; only a successful insert closes the
        form and resets it, a failed one keeps what was typed. */
    method HandleAdd(db: Database, newId: string) returns (ok: bool)
      requires db.Valid()
      modifies this, db
      ensures db.Valid()
      ensures ok <==> newId !in old(db.deadlines)
      ensures db.deadlines == if ok then old(db.deadlines)[newId := DeadlineOf(newId, old(newDeadline))] else old(db.deadlines)
      ensures ok ==> !showAdd && newDeadline == BlankDeadlineForm
      ensures !ok ==> showAdd == old(showAdd) && newDeadline == old(newDeadline)
      ensures db.profiles == old(db.profiles) && db.files == old(db.files)
    {
      ok := db.InsertDeadline(DeadlineOf(newId, newDeadline));
      if ok {
        showAdd := false;
        newDeadline := BlankDeadlineForm;
      }
    }
  }
}
