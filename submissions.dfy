/** The review queue (components/SubmissionManager.tsx): the listing of
    student files, the status filter, the selection and the approve, reject
    and bulk-approve actions. */
module Submissions {
  import opened Wrappers
  import opened Types
  import opened Seqs
  import opened Text
  import opened Sorting
  import opened App
  import Csv

  /** A file of the listing together with its owner, when the user list
      holds one (`{ ...f, student }`). */
  datatype ListedFile = ListedFile(file: CodexFile, student: Option<User>)

  /** The sort key `a.student?.enrollmentId || ''`. */
  function ListedKey(l: ListedFile): string
  {
    if l.student.Some? then OrElse(l.student.value.enrollmentId, "") else ""
  }

  predicate IsStudentFile(f: CodexFile)
  {
    f.ownerRole == Student
  }

  /** Pairs each file with the first user whose id is the file's owner. */
  function WithOwners(files: seq<CodexFile>, users: seq<User>): (r: seq<ListedFile>)
    ensures |r| == |files|
    ensures forall k :: 0 <= k < |files| ==> r[k] == ListedFile(files[k], Find(users, UserId, files[k].ownerId))
  {
    seq(|files|, k requires 0 <= k < |files| => ListedFile(files[k], Find(users, UserId, files[k].ownerId)))
  }

  /** `studentFiles`: the students' files with their owners, ascending by
      the owner's enrollment id. */
  function StudentFiles(files: seq<CodexFile>, users: seq<User>): seq<ListedFile>
  {
    SortBy(WithOwners(Filter(files, IsStudentFile), users), ListedKey)
  }

  /** The listing holds exactly the students' files, each paired with its
      owner from the user list, one entry per student file (each as often
      as it was given), in ascending enrollment-id order. */
  lemma StudentFilesSpec(files: seq<CodexFile>, users: seq<User>)
    ensures multiset(StudentFiles(files, users)) == multiset(WithOwners(Filter(files, IsStudentFile), users))
    ensures forall l :: l in StudentFiles(files, users) <==>
      l.file in files && l.file.ownerRole == Student && l.student == Find(users, UserId, l.file.ownerId)
    ensures forall l :: l in StudentFiles(files, users) && l.student.Some? ==>
      l.student.value in users && l.student.value.id == l.file.ownerId
    ensures |StudentFiles(files, users)| == |Filter(files, IsStudentFile)|
    ensures SortedBy(StudentFiles(files, users), ListedKey)
  {
    var own := Filter(files, IsStudentFile);
    var w := WithOwners(own, users);
    FilterMembership(files, IsStudentFile);
    SortByMembership(w, ListedKey);
    SortBySorted(w, ListedKey);
    forall l: ListedFile | l.file in own && l.student == Find(users, UserId, l.file.ownerId)
      ensures l in w
    {
      var k :| 0 <= k < |own| && own[k] == l.file;
      assert w[k] == l;
    }
  }

  /** The status filter: everything, or one status. */
  datatype StatusFilter = AllStatuses | OnlyStatus(status: SubmissionStatus)

  /** `filteredFiles`. */
  function FilteredFiles(listed: seq<ListedFile>, filter: StatusFilter): seq<ListedFile>
  {
    match filter
    case AllStatuses => listed
    case OnlyStatus(st) => Filter(listed, (l: ListedFile) => l.file.status == Some(st))
  }

  /** "All" shows the listing unchanged; a status shows exactly the entries
      in that status, in listing order. */
  lemma FilteredFilesSpec(listed: seq<ListedFile>, filter: StatusFilter)
    ensures filter.AllStatuses? ==> FilteredFiles(listed, filter) == listed
    ensures filter.OnlyStatus? ==> forall l :: l in FilteredFiles(listed, filter) <==> l in listed && l.file.status == Some(filter.status)
    ensures IsSubsequence(FilteredFiles(listed, filter), listed)
  {
    match filter
    case AllStatuses => SubsequenceReflexive(listed);
    case OnlyStatus(st) =>
      var p := (l: ListedFile) => l.file.status == Some(st);
      FilterMembership(listed, p);
      FilterIsSubsequence(listed, p);
  }

  // ---------------------------------------------------------------------------
  // Selection

  /** `toggleSelect`: drops every copy of a selected id, appends an
      unselected one. */
  function Toggled(sel: seq<string>, id: string): seq<string>
  {
    if id in sel then Filter(sel, (i: string) => i != id) else sel + [id]
  }

  /** Toggling flips the membership of that id and of no other. */
  lemma ToggledSpec(sel: seq<string>, id: string)
    ensures id in Toggled(sel, id) <==> id !in sel
    ensures forall j :: j != id ==> (j in Toggled(sel, id) <==> j in sel)
  {
    FilterMembership(sel, (i: string) => i != id);
  }

  /** Toggling the same id twice selects the same ids as before. */
  lemma ToggleTwice(sel: seq<string>, id: string)
    ensures forall j :: j in Toggled(Toggled(sel, id), id) <==> j in sel
  {
    ToggledSpec(sel, id);
    ToggledSpec(Toggled(sel, id), id);
  }

  function Ids(listed: seq<ListedFile>): (r: seq<string>)
    ensures |r| == |listed|
    ensures forall k :: 0 <= k < |listed| ==> r[k] == listed[k].file.id
  {
    seq(|listed|, k requires 0 <= k < |listed| => listed[k].file.id)
  }

  /** `toggleAll`: clears when the selection is as long as the visible list,
      otherwise selects every visible file. */
  function AfterToggleAll(sel: seq<string>, visible: seq<ListedFile>): seq<string>
  {
    if |sel| == |visible| then [] else Ids(visible)
  }

  /** Toggling all either clears the selection (exactly when its length is
      that of the visible list) or selects exactly the visible files. */
  lemma ToggleAllSpec(sel: seq<string>, visible: seq<ListedFile>)
    ensures AfterToggleAll(sel, visible) == [] <==> |sel| == |visible| || visible == []
    ensures |sel| != |visible| ==>
      forall id :: id in AfterToggleAll(sel, visible) <==> exists l :: l in visible && l.file.id == id
  {
    if |sel| != |visible| {
      var r := AfterToggleAll(sel, visible);
      forall id ensures id in r <==> exists l :: l in visible && l.file.id == id {
        if id in r {
          var k :| 0 <= k < |r| && r[k] == id;
          assert visible[k] in visible;
        }
        if l :| l in visible && l.file.id == id {
          var k :| 0 <= k < |visible| && visible[k] == l;
          assert r[k] == id;
        }
      }
    }
  }

  /** The test compares lengths only: a selection of one file that is not
      on screen is cleared, not replaced by the visible file. */
  lemma ToggleAllComparesLengthOnly(f: CodexFile)
    requires f.id != "elsewhere"
    ensures var visible := [ListedFile(f, None)];
      AfterToggleAll(["elsewhere"], visible) == [] && "elsewhere" != visible[0].file.id
  {
  }

  // ---------------------------------------------------------------------------
  // Bulk approval, as a sequence of store writes

  /** The file table after approving each id in turn, with no reason. */
  function ApproveAll(files: map<string, FileRow>, ids: seq<string>): map<string, FileRow>
    decreases |ids|
  {
    if ids == [] then files
    else WithStatus(ApproveAll(files, ids[..|ids| - 1]), ids[|ids| - 1], Approved, None)
  }

  /** The owner a status write to `id` would mark submitted: the owner of the
      file with that id in the local list, when that owner is a student. */
  function SubmittingOwner(localFiles: seq<CodexFile>, id: string): (r: Option<string>)
    ensures r.Some? ==> exists f :: f in localFiles && f.id == id && f.ownerRole == Student && f.ownerId == r.value
    ensures (forall i :: 0 <= i < |localFiles| ==> localFiles[i].id != id) ==> r.None?
  {
    match Find(localFiles, FileId, id)
    case Some(f) => if f.ownerRole == Student then Some(f.ownerId) else None
    case None => None
  }

  /** The profile table after the owner writes of approving each id in turn. */
  function MarkAllSubmitted(profiles: map<string, ProfileRow>, localFiles: seq<CodexFile>, ids: seq<string>): map<string, ProfileRow>
    decreases |ids|
  {
    if ids == [] then profiles
    else WithOwnerSubmitted(MarkAllSubmitted(profiles, localFiles, ids[..|ids| - 1]), localFiles, ids[|ids| - 1], Approved)
  }

  /** Approving a list of ids sets exactly the listed rows to approved and
      keeps every other column, rejection reason included. */
  lemma {:induction false} ApproveAllEffect(files: map<string, FileRow>, ids: seq<string>)
    ensures ApproveAll(files, ids).Keys == files.Keys
    ensures forall k :: k in files ==>
      ApproveAll(files, ids)[k] == if k in ids then files[k].(status := Some(Approved)) else files[k]
    decreases |ids|
  {
    if ids != [] {
      var front := ids[..|ids| - 1];
      ApproveAllEffect(files, front);
      forall k | k in files
        ensures ApproveAll(files, ids)[k] == if k in ids then files[k].(status := Some(Approved)) else files[k]
      {
        assert k in ids <==> k in front || k == ids[|ids| - 1] by {
          assert ids == front + [ids[|ids| - 1]];
        }
      }
    }
  }

  /** Some id of `ids` has `k` as its submitting owner. */
  predicate SubmittedBy(localFiles: seq<CodexFile>, ids: seq<string>, k: string)
  {
    exists i :: 0 <= i < |ids| && SubmittingOwner(localFiles, ids[i]) == Some(k)
  }

  lemma SubmittedBySnoc(localFiles: seq<CodexFile>, ids: seq<string>, id: string, k: string)
    ensures SubmittedBy(localFiles, ids + [id], k) <==> SubmittedBy(localFiles, ids, k) || SubmittingOwner(localFiles, id) == Some(k)
  {
    var all := ids + [id];
    if SubmittedBy(localFiles, all, k) {
      var i :| 0 <= i < |all| && SubmittingOwner(localFiles, all[i]) == Some(k);
      if i < |ids| {
        assert all[i] == ids[i];
      }
    }
    if SubmittedBy(localFiles, ids, k) {
      var i :| 0 <= i < |ids| && SubmittingOwner(localFiles, ids[i]) == Some(k);
      assert all[i] == ids[i];
    }
    if SubmittingOwner(localFiles, id) == Some(k) {
      assert all[|ids|] == id;
    }
  }

  /** One owner write, read through `SubmittingOwner`. */
  lemma OwnerWriteBySubmittingOwner(profiles: map<string, ProfileRow>, localFiles: seq<CodexFile>, id: string)
    ensures WithOwnerSubmitted(profiles, localFiles, id, Approved).Keys == profiles.Keys
    ensures forall k :: k in profiles ==>
      WithOwnerSubmitted(profiles, localFiles, id, Approved)[k] ==
        if SubmittingOwner(localFiles, id) == Some(k) then profiles[k].(is_submitted := Some(true)) else profiles[k]
  {
  }

  /** Approving a list of ids marks submitted exactly the student owners of
      the listed files found in the local list, and changes no other column. */
  lemma {:induction false} MarkAllSubmittedEffect(profiles: map<string, ProfileRow>, localFiles: seq<CodexFile>, ids: seq<string>)
    ensures MarkAllSubmitted(profiles, localFiles, ids).Keys == profiles.Keys
    ensures forall k :: k in profiles ==>
      MarkAllSubmitted(profiles, localFiles, ids)[k] ==
        if SubmittedBy(localFiles, ids, k) then profiles[k].(is_submitted := Some(true)) else profiles[k]
    decreases |ids|
  {
    if ids != [] {
      var n := |ids| - 1;
      var front := ids[..n];
      assert ids == front + [ids[n]];
      MarkAllSubmittedEffect(profiles, localFiles, front);
      var prev := MarkAllSubmitted(profiles, localFiles, front);
      OwnerWriteBySubmittingOwner(prev, localFiles, ids[n]);
      forall k | k in profiles
        ensures MarkAllSubmitted(profiles, localFiles, ids)[k] ==
          if SubmittedBy(localFiles, ids, k) then profiles[k].(is_submitted := Some(true)) else profiles[k]
      {
        SubmittedBySnoc(localFiles, front, ids[n], k);
      }
    }
  }

  // ---------------------------------------------------------------------------
  // Export

  const ExportHeader: seq<string> := ["Enrollment ID", "Student Name", "File Name", "Status", "Timestamp"]

  /** One export row; a status-less file renders an empty status cell. */
  function ExportRow(l: ListedFile): seq<string>
  {
    [ if l.student.Some? then OrElse(l.student.value.enrollmentId, "N/A") else "N/A",
      if l.student.Some? then OrElse(Some(l.student.value.name), "N/A") else "N/A",
      l.file.name,
      if l.file.status.Some? then StatusName(l.file.status.value) else "",
      l.file.createdAt ]
  }

  function ExportRows(visible: seq<ListedFile>): (r: seq<seq<string>>)
    ensures |r| == |visible|
    ensures forall k :: 0 <= k < |visible| ==> r[k] == ExportRow(visible[k])
  {
    seq(|visible|, k requires 0 <= k < |visible| => ExportRow(visible[k]))
  }

  /** `handleExport`: the header line, then one line per listed file in
      table order; with nothing listed, the header line and a line break. */
  function Export(visible: seq<ListedFile>): (r: string)
    ensures |r| > |Csv.DataPrefix| && r[..|Csv.DataPrefix|] == Csv.DataPrefix
    ensures visible != [] ==> r == Csv.DataPrefix + Join([Csv.Line(ExportHeader)] + Csv.Lines(ExportRows(visible)), "\n")
    ensures visible == [] ==> r[|Csv.DataPrefix|..] == Csv.Line(ExportHeader) + "\n"
  {
    Csv.Document(ExportHeader, ExportRows(visible))
  }

  /** Each exported row has five cells, the file's name and creation time
      verbatim; the owner's enrollment id and name are written as they are,
      and read N/A when the owner is unknown or the value is missing or
      empty; the status cell reads the status by its enum value. */
  lemma ExportRowShape(l: ListedFile)
    ensures |ExportRow(l)| == 5 && ExportRow(l)[2] == l.file.name && ExportRow(l)[4] == l.file.createdAt
    ensures l.student.None? ==> ExportRow(l)[0] == "N/A" && ExportRow(l)[1] == "N/A"
    ensures l.student.Some? && l.student.value.name != "" ==> ExportRow(l)[1] == l.student.value.name
    ensures l.student.Some? && l.student.value.name == "" ==> ExportRow(l)[1] == "N/A"
    ensures l.student.Some? && l.student.value.enrollmentId.Some? && l.student.value.enrollmentId.value != "" ==>
      ExportRow(l)[0] == l.student.value.enrollmentId.value
    ensures l.student.Some? && (l.student.value.enrollmentId.None? || l.student.value.enrollmentId == Some("")) ==>
      ExportRow(l)[0] == "N/A"
    ensures l.file.status.Some? ==> ParseStatus(ExportRow(l)[3]) == l.file.status
    ensures l.file.status.None? ==> ExportRow(l)[3] == ""
  {
    if l.file.status.Some? {
      StatusNameRoundTrip(l.file.status.value, "");
    }
  }

  // ---------------------------------------------------------------------------
  // The page

  class SubmissionManager {
    var selectedIds: seq<string>
    var filter: StatusFilter

    constructor ()
      ensures selectedIds == [] && filter == AllStatuses
    {
      selectedIds := [];
      filter := AllStatuses;
    }

    method SetFilter(f: StatusFilter)
      modifies this
      ensures filter == f && selectedIds == old(selectedIds)
    {
      filter := f;
    }

    /** What the table shows for the given file and user lists. */
    function Visible(files: seq<CodexFile>, users: seq<User>): seq<ListedFile>
      reads this
    {
      FilteredFiles(StudentFiles(files, users), filter)
    }

    method ToggleSelect(id: string)
      modifies this
      ensures selectedIds == Toggled(old(selectedIds), id)
      ensures id in selectedIds <==> id !in old(selectedIds)
      ensures filter == old(filter)
    {
      ToggledSpec(selectedIds, id);
      if id in selectedIds {
        selectedIds := Filter(selectedIds, (i: string) => i != id);
      } else {
        selectedIds := selectedIds + [id];
      }
    }

    method ToggleAll(files: seq<CodexFile>, users: seq<User>)
      modifies this
      ensures selectedIds == AfterToggleAll(old(selectedIds), old(Visible(files, users)))
      ensures filter == old(filter)
    {
      var visible := Visible(files, users);
      if |selectedIds| == |visible| {
        selectedIds := [];
      } else {
        selectedIds := Ids(visible);
      }
    }

    /** `handleBulkApprove`: on confirmation, one approval per selected id,
        in selection order, then the selection is cleared. `localFiles` is
        the file list the shell holds. */
    method BulkApprove(db: Database, confirmed: bool, localFiles: seq<CodexFile>)
      requires db.Valid()
      modifies this, db
      ensures db.Valid()
      ensures confirmed ==> db.files == ApproveAll(old(db.files), old(selectedIds))
      ensures confirmed ==> db.profiles == MarkAllSubmitted(old(db.profiles), localFiles, old(selectedIds))
      ensures confirmed ==> selectedIds == []
      ensures !confirmed ==> db.files == old(db.files) && db.profiles == old(db.profiles) && selectedIds == old(selectedIds)
      ensures db.deadlines == old(db.deadlines) && filter == old(filter)
    {
      if !confirmed {
        return;
      }
      var ids := selectedIds;
      var i := 0;
      while i < |ids|
        invariant 0 <= i <= |ids|
        invariant db.Valid()
        invariant db.files == ApproveAll(old(db.files), ids[..i])
        invariant db.profiles == MarkAllSubmitted(old(db.profiles), localFiles, ids[..i])
        invariant db.deadlines == old(db.deadlines)
        invariant filter == old(filter)
      {
        db.UpdateStatus(ids[i], Approved, None, localFiles);
        assert ids[..i + 1][..i] == ids[..i];
        i := i + 1;
      }
      assert ids[..|ids|] == ids;
      selectedIds := [];
    }

    /** The approve button of one row. */
    method Approve(db: Database, fileId: string, localFiles: seq<CodexFile>)
      requires db.Valid()
      modifies db
      ensures db.Valid()
      ensures db.files == WithStatus(old(db.files), fileId, Approved, None)
      ensures db.profiles == WithOwnerSubmitted(old(db.profiles), localFiles, fileId, Approved)
      ensures db.deadlines == old(db.deadlines)
    {
      db.UpdateStatus(fileId, Approved, None, localFiles);
    }

    /** The reject button of one row: `answer` is what the prompt returned
        (None when cancelled). Only a non-empty answer issues the write, so
        a rejection made here always stores its reason. */
    method Reject(db: Database, fileId: string, answer: Option<string>, localFiles: seq<CodexFile>)
      requires db.Valid()
      modifies db
      ensures db.Valid()
      ensures answer.Some? && answer.value != "" ==> db.files == WithStatus(old(db.files), fileId, Rejected, answer)
      ensures answer.Some? && answer.value != "" && fileId in old(db.files) ==>
        db.files[fileId].status == Some(Rejected) && db.files[fileId].rejection_reason == answer
      ensures !(answer.Some? && answer.value != "") ==> db.files == old(db.files)
      ensures db.profiles == old(db.profiles) && db.deadlines == old(db.deadlines)
    {
      if answer.Some? && answer.value != "" {
        db.UpdateStatus(fileId, Rejected, answer, localFiles);
      }
    }
  }
}
