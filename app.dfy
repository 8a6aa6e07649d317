/** The top-level component (App.tsx): how stored rows become view records,
    and the writes the handlers issue against the `profiles`, `files` and
    `deadlines` tables. The tables are maps from a row's `id` to the row;
    `.update(cols).eq('id', id)` rewrites the row with that id if there is
    one, `.insert` adds a row unless its id is taken, `.delete().eq('id', id)`
    drops it. */
module App {
  import opened Wrappers
  import opened Types
  import opened Seqs
  import Permissions

  /** A row of the `profiles` table; fields are named after the columns. */
  datatype ProfileRow = ProfileRow(
    id: string,
    name: string,
    email: string,
    role: UserRole,
    enrollment_id: Option<string>,
    semester: Option<int>,
    section: Option<string>,
    avatar: Option<string>,
    bio: Option<string>,
    join_date: Option<string>,
    last_active: Option<string>,
    can_upload: Option<bool>,
    is_submitted: Option<bool>,
    is_verified: Option<bool>)

  /** A row of the `files` table; `file_type` is the column `type`. */
  datatype FileRow = FileRow(
    id: string,
    name: string,
    size: int,
    file_type: string,
    owner_id: string,
    owner_role: UserRole,
    created_at: string,
    is_immutable: bool,
    status: Option<SubmissionStatus>,
    rejection_reason: Option<string>,
    url: string)

  /** `mapProfile`: each column to its camel-case field. */
  function MapProfile(row: ProfileRow): User
  {
    User(row.id, row.name, row.email, row.role, row.enrollment_id, row.semester,
         row.section, row.avatar, row.bio, row.join_date, row.last_active,
         row.can_upload, row.is_submitted, row.is_verified)
  }

  /** The row a user record is read from: the inverse of `MapProfile`. */
  function ProfileRowOf(u: User): ProfileRow
  {
    ProfileRow(u.id, u.name, u.email, u.role, u.enrollmentId, u.semester,
               u.section, u.avatar, u.bio, u.joinDate, u.lastActive,
               u.canUpload, u.isSubmitted, u.isVerified)
  }

  /** `mapProfile` copies every column unchanged: nothing is lost or altered. */
  lemma MapProfileRoundTrip(row: ProfileRow, u: User)
    ensures ProfileRowOf(MapProfile(row)) == row
    ensures MapProfile(ProfileRowOf(u)) == u
  {
  }

  /** `mapFile`: each column to its camel-case field. */
  function MapFile(row: FileRow): CodexFile
  {
    CodexFile(row.id, row.name, row.size, row.file_type, row.owner_id, row.owner_role,
              row.created_at, row.is_immutable, row.status, row.rejection_reason, row.url)
  }

  function FileRowOf(f: CodexFile): FileRow
  {
    FileRow(f.id, f.name, f.size, f.fileType, f.ownerId, f.ownerRole,
            f.createdAt, f.isImmutable, f.status, f.rejectionReason, f.url)
  }

  lemma MapFileRoundTrip(row: FileRow, f: CodexFile)
    ensures FileRowOf(MapFile(row)) == row
    ensures MapFile(FileRowOf(f)) == f
  {
  }

  /** The browser's description of an uploaded file. */
  datatype Upload = Upload(name: string, size: int, fileType: string)

  /** The row `handleUpload` inserts for `uploader`. */
  function NewFileRow(id: string, uploader: User, upload: Upload, createdAt: string, url: string): FileRow
  {
    FileRow(id, upload.name, upload.size, upload.fileType, uploader.id, uploader.role, createdAt,
            uploader.role == Admin,
            if uploader.role == Student then Some(Pending) else None,
            None, url)
  }

  /** What every file row written by the portal satisfies: immutable exactly
      when an admin uploaded it, and a student's file always has a status. */
  predicate WellFormedFile(row: FileRow)
  {
    row.is_immutable == (row.owner_role == Admin) &&
    (row.owner_role == Student ==> row.status.Some?)
  }

  /** The uploaded record belongs to the uploader; it is immutable exactly for
      an admin, pending exactly for a student and without status for staff. */
  lemma NewFileRowFacts(id: string, uploader: User, upload: Upload, createdAt: string, url: string)
    ensures var r := NewFileRow(id, uploader, upload, createdAt, url);
      && r.id == id && r.owner_id == uploader.id && r.owner_role == uploader.role
      && (r.is_immutable <==> uploader.role == Admin)
      && (r.status == Some(Pending) <==> uploader.role == Student)
      && (uploader.role != Student ==> r.status == None)
      && r.rejection_reason == None
      && WellFormedFile(r)
  {
  }

  /** A well-formed file uploaded by an admin can be deleted by nobody:
      a head is stopped by its owner role, everyone else by its immutability. */
  lemma AdminFilesUndeletable(row: FileRow, u: User)
    requires WellFormedFile(row) && row.owner_role == Admin
    ensures !Permissions.CanDelete(u, MapFile(row))
  {
  }

  /** In particular, whatever an admin uploads is out of every role's reach. */
  lemma AdminUploadUndeletable(id: string, uploader: User, upload: Upload, createdAt: string, url: string, u: User)
    requires uploader.role == Admin
    ensures !Permissions.CanDelete(u, MapFile(NewFileRow(id, uploader, upload, createdAt, url)))
  {
    NewFileRowFacts(id, uploader, upload, createdAt, url);
    AdminFilesUndeletable(NewFileRow(id, uploader, upload, createdAt, url), u);
  }

  // ---------------------------------------------------------------------------
  // Effects of the writes on one table

  /** First write of `handleUpdateStatus`: `{ status, rejection_reason: reason }`.
      With no reason the key is `undefined`, which the request body leaves
      out, so the stored reason is kept. */
  function WithStatus(files: map<string, FileRow>, id: string, status: SubmissionStatus, reason: Option<string>): map<string, FileRow>
  {
    if id in files then
      files[id := files[id].(status := Some(status),
                             rejection_reason := if reason.Some? then reason else files[id].rejection_reason)]
    else files
  }

  /** Second write of `handleUpdateStatus`: after an approval, the owner of the
      file found in the local list is marked submitted if it is a student. */
  function WithOwnerSubmitted(profiles: map<string, ProfileRow>, localFiles: seq<CodexFile>, id: string, status: SubmissionStatus): map<string, ProfileRow>
  {
    if status != Approved then profiles
    else match Find(localFiles, FileId, id)
      case Some(f) =>
        if f.ownerRole == Student && f.ownerId in profiles
        then profiles[f.ownerId := profiles[f.ownerId].(is_submitted := Some(true))]
        else profiles
      case None => profiles
  }

  /** `toggleStudentUploadPermission`: negates the flag the local list shows,
      and writes nothing for an id the list does not hold. */
  function WithUploadToggled(profiles: map<string, ProfileRow>, users: seq<User>, id: string): map<string, ProfileRow>
  {
    match Find(users, UserId, id)
    case None => profiles
    case Some(u) =>
      if id in profiles then profiles[id := profiles[id].(can_upload := Some(!Truthy(u.canUpload)))]
      else profiles
  }

  /** The two compliance flags of the verification tracker. */
  datatype ComplianceFlag = IsSubmitted | IsVerified

  function FlagOf(u: User, flag: ComplianceFlag): Option<bool>
  {
    match flag
    case IsSubmitted => u.isSubmitted
    case IsVerified => u.isVerified
  }

  function ColumnOf(row: ProfileRow, flag: ComplianceFlag): Option<bool>
  {
    match flag
    case IsSubmitted => row.is_submitted
    case IsVerified => row.is_verified
  }

  function SetColumn(row: ProfileRow, flag: ComplianceFlag, v: bool): ProfileRow
  {
    match flag
    case IsSubmitted => row.(is_submitted := Some(v))
    case IsVerified => row.(is_verified := Some(v))
  }

  /** The tracker's toggle: writes the negation of the flag the local list
      shows; an id missing from the list reads as `undefined`, so `true` is
      written. */
  function WithFlagToggled(profiles: map<string, ProfileRow>, users: seq<User>, id: string, flag: ComplianceFlag): map<string, ProfileRow>
  {
    var current := match Find(users, UserId, id) case Some(u) => FlagOf(u, flag) case None => None;
    if id in profiles then profiles[id := SetColumn(profiles[id], flag, !Truthy(current))]
    else profiles
  }

  /** The profile page's save: writes name, bio and avatar of row `u.id`. */
  function WithProfileEdit(profiles: map<string, ProfileRow>, u: User): map<string, ProfileRow>
  {
    if u.id in profiles then profiles[u.id := profiles[u.id].(name := u.name, bio := u.bio, avatar := u.avatar)]
    else profiles
  }

  /** `handleUpdateStaffRole`. */
  function WithRole(profiles: map<string, ProfileRow>, id: string, role: UserRole): map<string, ProfileRow>
  {
    if id in profiles then profiles[id := profiles[id].(role := role)] else profiles
  }

  /** The local list of users is what the change feed last fetched: every
      entry is the mapping of the stored row with its id. */
  ghost predicate Projects(users: seq<User>, profiles: map<string, ProfileRow>)
  {
    forall i :: 0 <= i < |users| ==> users[i].id in profiles && users[i] == MapProfile(profiles[users[i].id])
  }

  // ---------------------------------------------------------------------------
  // Properties of the writes

  /** The status write touches one row, sets its status whatever the status
      was before, and changes its reason only when a reason is given. */
  lemma StatusWriteEffect(files: map<string, FileRow>, id: string, status: SubmissionStatus, reason: Option<string>)
    ensures var r := WithStatus(files, id, status, reason);
      && r.Keys == files.Keys
      && (forall k :: k in files && k != id ==> r[k] == files[k])
      && (id in files ==> r[id].status == Some(status))
      && (id in files ==> r[id].(status := files[id].status, rejection_reason := files[id].rejection_reason) == files[id])
      && (id in files && reason.Some? ==> r[id].rejection_reason == reason)
      && (id in files && reason.None? ==> r[id].rejection_reason == files[id].rejection_reason)
  {
  }

  /** No state is terminal: an approved file can be rejected and a rejected
      one approved. */
  lemma DecisionsCanBeReversed(files: map<string, FileRow>, id: string, reason: string)
    requires id in files
    ensures files[id].status == Some(Approved) ==> WithStatus(files, id, Rejected, Some(reason))[id].status == Some(Rejected)
    ensures files[id].status == Some(Rejected) ==> WithStatus(files, id, Approved, None)[id].status == Some(Approved)
  {
  }

  /** Approving a rejected file without a reason keeps the old reason, so
      an approved file can carry a rejection reason. */
  lemma ApprovalKeepsRejectionReason(files: map<string, FileRow>, id: string, reason: string)
    requires id in files && files[id].status == Some(Rejected) && files[id].rejection_reason == Some(reason)
    ensures WithStatus(files, id, Approved, None)[id].status == Some(Approved)
    ensures WithStatus(files, id, Approved, None)[id].rejection_reason == Some(reason)
  {
  }

  /** The status write does not check the owner: a staff upload, which has
      no status, gets one. */
  lemma StaffFileCanGetStatus(files: map<string, FileRow>, id: string, status: SubmissionStatus)
    requires id in files && files[id].owner_role != Student && files[id].status == None
    ensures WithStatus(files, id, status, None)[id].status == Some(status)
    ensures WithStatus(files, id, status, None)[id].owner_role != Student
  {
  }

  /** Approving a student's file found in the local list marks exactly that
      student submitted and changes no other row or column. */
  lemma ApprovalMarksOwnerSubmitted(profiles: map<string, ProfileRow>, localFiles: seq<CodexFile>, id: string, f: CodexFile)
    requires Find(localFiles, FileId, id) == Some(f) && f.ownerRole == Student && f.ownerId in profiles
    ensures var r := WithOwnerSubmitted(profiles, localFiles, id, Approved);
      && r.Keys == profiles.Keys
      && r[f.ownerId].is_submitted == Some(true)
      && r[f.ownerId].(is_submitted := profiles[f.ownerId].is_submitted) == profiles[f.ownerId]
      && (forall k :: k in profiles && k != f.ownerId ==> r[k] == profiles[k])
  {
  }

  /** Pending and rejected decisions, files missing from the local list and
      non-student files write no profile. */
  lemma OwnerWriteOnlyOnStudentApproval(profiles: map<string, ProfileRow>, localFiles: seq<CodexFile>, id: string, status: SubmissionStatus)
    requires status != Approved
          || Find(localFiles, FileId, id).None?
          || Find(localFiles, FileId, id).value.ownerRole != Student
    ensures WithOwnerSubmitted(profiles, localFiles, id, status) == profiles
  {
  }

  /** Approving twice is approving once, in both tables. */
  lemma ApprovalIdempotent(files: map<string, FileRow>, profiles: map<string, ProfileRow>, localFiles: seq<CodexFile>, id: string, reason: Option<string>)
    ensures WithStatus(WithStatus(files, id, Approved, reason), id, Approved, reason) == WithStatus(files, id, Approved, reason)
    ensures WithOwnerSubmitted(WithOwnerSubmitted(profiles, localFiles, id, Approved), localFiles, id, Approved)
         == WithOwnerSubmitted(profiles, localFiles, id, Approved)
  {
  }

  /** The upload toggle writes the `can_upload` column of one row only. */
  lemma UploadToggleEffect(profiles: map<string, ProfileRow>, users: seq<User>, id: string)
    ensures var r := WithUploadToggled(profiles, users, id);
      && r.Keys == profiles.Keys
      && (forall k :: k in profiles && k != id ==> r[k] == profiles[k])
      && (id in profiles ==> r[id].(can_upload := profiles[id].can_upload) == profiles[id])
  {
  }

  /** An id the local list does not hold causes no write. */
  lemma UploadToggleUnknownId(profiles: map<string, ProfileRow>, users: seq<User>, id: string)
    requires forall i :: 0 <= i < |users| ==> users[i].id != id
    ensures WithUploadToggled(profiles, users, id) == profiles
  {
  }

  /** With the local list in step with the table, the toggle negates the stored flag. */
  lemma UploadToggleNegates(profiles: map<string, ProfileRow>, users: seq<User>, id: string)
    requires Projects(users, profiles) && Find(users, UserId, id).Some?
    ensures id in profiles
    ensures WithUploadToggled(profiles, users, id) == profiles[id := profiles[id].(can_upload := Some(!Truthy(profiles[id].can_upload)))]
  {
    var u := Find(users, UserId, id).value;
    var i :| 0 <= i < |users| && users[i] == u;
  }

  /** Toggling twice, with the change feed refreshing the list in between,
      restores the flag; a flag that was never set comes back as `false`. */
  lemma UploadToggleTwice(profiles: map<string, ProfileRow>, users: seq<User>, users': seq<User>, id: string)
    requires Projects(users, profiles) && Find(users, UserId, id).Some?
    requires Projects(users', WithUploadToggled(profiles, users, id)) && Find(users', UserId, id).Some?
    ensures id in profiles
    ensures var twice := WithUploadToggled(WithUploadToggled(profiles, users, id), users', id);
      && twice.Keys == profiles.Keys
      && (forall k :: k in profiles && k != id ==> twice[k] == profiles[k])
      && Truthy(twice[id].can_upload) == Truthy(profiles[id].can_upload)
      && (profiles[id].can_upload.Some? ==> twice[id] == profiles[id])
  {
    UploadToggleNegates(profiles, users, id);
    var row := profiles[id];
    var flipped := row.(can_upload := Some(!Truthy(row.can_upload)));
    var once := profiles[id := flipped];
    assert WithUploadToggled(profiles, users, id) == once;
    UploadToggleNegates(once, users', id);
    var back := flipped.(can_upload := Some(!Truthy(flipped.can_upload)));
    assert WithUploadToggled(once, users', id) == once[id := back];
    assert once[id := back] == profiles[id := back];
    assert Truthy(back.can_upload) == Truthy(row.can_upload);
    if row.can_upload.Some? {
      var b := row.can_upload.value;
      assert Truthy(row.can_upload) == b;
      assert flipped.can_upload == Some(!b);
      assert Truthy(flipped.can_upload) == !b;
      assert back.can_upload == row.can_upload;
      assert back == row;
    }
  }

  /** The tracker's toggle writes the chosen column of one row; the other
      flag and every other column stay as they were. */
  lemma FlagToggleEffect(profiles: map<string, ProfileRow>, users: seq<User>, id: string, flag: ComplianceFlag)
    ensures var r := WithFlagToggled(profiles, users, id, flag);
      && r.Keys == profiles.Keys
      && (forall k :: k in profiles && k != id ==> r[k] == profiles[k])
      && (id in profiles ==> ColumnOf(r[id], flag).Some?)
      && (id in profiles ==> r[id] == SetColumn(profiles[id], flag, ColumnOf(r[id], flag).value))
      && (id in profiles && flag == IsSubmitted ==> r[id].is_verified == profiles[id].is_verified)
      && (id in profiles && flag == IsVerified ==> r[id].is_submitted == profiles[id].is_submitted)
  {
  }

  /** With the local list in step with the table, the toggle writes the
      negation of the stored flag into the chosen column. */
  lemma FlagToggleNegates(profiles: map<string, ProfileRow>, users: seq<User>, id: string, flag: ComplianceFlag)
    requires Projects(users, profiles) && Find(users, UserId, id).Some?
    ensures id in profiles
    ensures WithFlagToggled(profiles, users, id, flag) == profiles[id := SetColumn(profiles[id], flag, !Truthy(ColumnOf(profiles[id], flag)))]
  {
    var u := Find(users, UserId, id).value;
    var i :| 0 <= i < |users| && users[i] == u;
  }

  /** Writing a column and reading it back; a second write replaces the first. */
  lemma SetColumnFacts(row: ProfileRow, flag: ComplianceFlag, v: bool, w: bool)
    ensures ColumnOf(SetColumn(row, flag, v), flag) == Some(v)
    ensures SetColumn(SetColumn(row, flag, v), flag, w) == SetColumn(row, flag, w)
    ensures ColumnOf(row, flag) == Some(w) ==> SetColumn(row, flag, w) == row
  {
  }

  /** Toggling a flag twice, with the change feed refreshing the list in
      between, restores it; a flag that was never set comes back as `false`. */
  lemma FlagToggleTwice(profiles: map<string, ProfileRow>, users: seq<User>, users': seq<User>, id: string, flag: ComplianceFlag)
    requires Projects(users, profiles) && Find(users, UserId, id).Some?
    requires Projects(users', WithFlagToggled(profiles, users, id, flag)) && Find(users', UserId, id).Some?
    ensures id in profiles
    ensures var twice := WithFlagToggled(WithFlagToggled(profiles, users, id, flag), users', id, flag);
      && twice.Keys == profiles.Keys
      && (forall k :: k in profiles && k != id ==> twice[k] == profiles[k])
      && Truthy(ColumnOf(twice[id], flag)) == Truthy(ColumnOf(profiles[id], flag))
      && (ColumnOf(profiles[id], flag).Some? ==> twice[id] == profiles[id])
  {
    FlagToggleNegates(profiles, users, id, flag);
    var row := profiles[id];
    var b := Truthy(ColumnOf(row, flag));
    var once := profiles[id := SetColumn(row, flag, !b)];
    assert WithFlagToggled(profiles, users, id, flag) == once;
    assert Projects(users', once);
    FlagToggleNegates(once, users', id, flag);
    SetColumnFacts(row, flag, !b, b);
    var twice := profiles[id := SetColumn(row, flag, b)];
    assert WithFlagToggled(once, users', id, flag) == twice;
    if ColumnOf(row, flag).Some? {
      var c := ColumnOf(row, flag).value;
      assert b == c;
    }
  }

  /** Nothing in the store keeps `verified ==> submitted`: withdrawing the
      submission of a verified student leaves it verified. */
  lemma VerifiedWithoutSubmittedReachable(profiles: map<string, ProfileRow>, users: seq<User>, id: string)
    requires Projects(users, profiles) && Find(users, UserId, id).Some?
    requires profiles[id].is_submitted == Some(true) && profiles[id].is_verified == Some(true)
    ensures var r := WithFlagToggled(profiles, users, id, IsSubmitted);
      r[id].is_verified == Some(true) && r[id].is_submitted == Some(false)
  {
    var u := Find(users, UserId, id).value;
    var i :| 0 <= i < |users| && users[i] == u;
  }

  /** Nor is verifying guarded by the store: a student not yet submitted
      becomes verified. */
  lemma VerifyWithoutSubmission(profiles: map<string, ProfileRow>, users: seq<User>, id: string)
    requires Projects(users, profiles) && Find(users, UserId, id).Some?
    requires profiles[id].is_submitted != Some(true) && profiles[id].is_verified != Some(true)
    ensures var r := WithFlagToggled(profiles, users, id, IsVerified);
      r[id].is_verified == Some(true) && r[id].is_submitted == profiles[id].is_submitted
  {
    var u := Find(users, UserId, id).value;
    var i :| 0 <= i < |users| && users[i] == u;
  }

  /** A profile the local list lacks reads as `undefined`, so the toggle sets the flag. */
  lemma FlagToggleUnknownSets(profiles: map<string, ProfileRow>, users: seq<User>, id: string, flag: ComplianceFlag)
    requires id in profiles && forall i :: 0 <= i < |users| ==> users[i].id != id
    ensures ColumnOf(WithFlagToggled(profiles, users, id, flag)[id], flag) == Some(true)
  {
  }

  /** The profile edit writes name, bio and avatar; role, flags and the other
      columns are untouched, and so are all other rows. */
  lemma ProfileEditEffect(profiles: map<string, ProfileRow>, u: User)
    ensures var r := WithProfileEdit(profiles, u);
      && r.Keys == profiles.Keys
      && (forall k :: k in profiles && k != u.id ==> r[k] == profiles[k])
      && (u.id in profiles ==> r[u.id].name == u.name && r[u.id].bio == u.bio && r[u.id].avatar == u.avatar)
      && (u.id in profiles ==> r[u.id].(name := profiles[u.id].name, bio := profiles[u.id].bio, avatar := profiles[u.id].avatar) == profiles[u.id])
  {
  }

  // ---------------------------------------------------------------------------
  // The tables

  class Database {
    var profiles: map<string, ProfileRow>
    var files: map<string, FileRow>
    var deadlines: map<string, Deadline>

    /** Rows are stored under their own id, and every file row is well formed. */
    ghost predicate Valid()
      reads this
    {
      (forall k :: k in profiles ==> profiles[k].id == k) &&
      (forall k :: k in files ==> files[k].id == k && WellFormedFile(files[k])) &&
      (forall k :: k in deadlines ==> deadlines[k].id == k)
    }

    constructor ()
      ensures Valid()
      ensures profiles == map[] && files == map[] && deadlines == map[]
    {
      profiles, files, deadlines := map[], map[], map[];
    }

    /** `handleUpload`: nothing is inserted without a signed-in user or when
        the storage upload fails. `newId`, `createdAt` and `publicUrl` are the
        values the provider assigns. */
    method Upload(current: Option<User>, upload: Upload, storageFailed: bool, newId: string, createdAt: string, publicUrl: string)
      returns (inserted: bool)
      requires Valid()
      modifies this
      ensures Valid()
      ensures inserted <==> current.Some? && !storageFailed && newId !in old(files)
      ensures files == if inserted then old(files)[newId := NewFileRow(newId, current.value, upload, createdAt, publicUrl)] else old(files)
      ensures profiles == old(profiles) && deadlines == old(deadlines)
    {
      inserted := false;
      if current.None? {
        return;
      }
      if storageFailed {
        return;
      }
      var row := NewFileRow(newId, current.value, upload, createdAt, publicUrl);
      if newId !in files {
        files := files[newId := row];
        inserted := true;
      }
    }

    /** A valid database holds no admin file that anyone may delete. */
    lemma StoredAdminFilesUndeletable(u: User, id: string)
      requires Valid() && id in files && files[id].owner_role == Admin
      ensures !Permissions.CanDelete(u, MapFile(files[id]))
    {
      AdminFilesUndeletable(files[id], u);
    }

    /** The drive shows the delete button only when `CanDelete` holds for the
        file as listed; the shell then deletes the row by id, unguarded. */
    method DeleteFile(u: User, f: CodexFile) returns (deleted: bool)
      requires Valid()
      modifies this
      ensures Valid()
      ensures deleted <==> Permissions.CanDelete(u, f)
      ensures files == if deleted then old(files) - {f.id} else old(files)
      ensures profiles == old(profiles) && deadlines == old(deadlines)
      ensures f.id in old(files) && f == MapFile(old(files)[f.id]) && f.ownerRole == Admin ==> files == old(files)
    {
      if f.id in files && f == MapFile(files[f.id]) && f.ownerRole == Admin {
        StoredAdminFilesUndeletable(u, f.id);
      }
      deleted := Permissions.CanDelete(u, f);
      if deleted {
        files := files - {f.id};
      }
    }

    /** `handleUpdateStatus`: the status write, then, for an approval of a
        student file in the local list, the owner's `is_submitted`. */
    method UpdateStatus(fileId: string, status: SubmissionStatus, reason: Option<string>, localFiles: seq<CodexFile>)
      requires Valid()
      modifies this
      ensures Valid()
      ensures files == WithStatus(old(files), fileId, status, reason)
      ensures profiles == WithOwnerSubmitted(old(profiles), localFiles, fileId, status)
      ensures deadlines == old(deadlines)
    {
      if fileId in files {
        var row := files[fileId];
        files := files[fileId := row.(status := Some(status),
                                      rejection_reason := if reason.Some? then reason else row.rejection_reason)];
      }
      if status == Approved {
        var file := Find(localFiles, FileId, fileId);
        if file.Some? && file.value.ownerRole == Student {
          var owner := file.value.ownerId;
          if owner in profiles {
            profiles := profiles[owner := profiles[owner].(is_submitted := Some(true))];
          }
        }
      }
    }

    /** `toggleStudentUploadPermission`. */
    method ToggleUploadPermission(studentId: string, allUsers: seq<User>)
      requires Valid()
      modifies this
      ensures Valid()
      ensures profiles == WithUploadToggled(old(profiles), allUsers, studentId)
      ensures files == old(files) && deadlines == old(deadlines)
    {
      var student := Find(allUsers, UserId, studentId);
      if student.None? {
        return;
      }
      var newState := !Truthy(student.value.canUpload);
      if studentId in profiles {
        profiles := profiles[studentId := profiles[studentId].(can_upload := Some(newState))];
      }
    }

    /** The verification tracker's `onToggleStatus`. */
    method ToggleFlag(id: string, flag: ComplianceFlag, allUsers: seq<User>)
      requires Valid()
      modifies this
      ensures Valid()
      ensures profiles == WithFlagToggled(old(profiles), allUsers, id, flag)
      ensures files == old(files) && deadlines == old(deadlines)
    {
      var found := Find(allUsers, UserId, id);
      var currentVal := if found.Some? then FlagOf(found.value, flag) else None;
      if id in profiles {
        profiles := profiles[id := SetColumn(profiles[id], flag, !Truthy(currentVal))];
      }
    }

    /** The profile page's `onUpdate`. */
    method EditProfile(u: User)
      requires Valid()
      modifies this
      ensures Valid()
      ensures profiles == WithProfileEdit(old(profiles), u)
      ensures files == old(files) && deadlines == old(deadlines)
    {
      if u.id in profiles {
        profiles := profiles[u.id := profiles[u.id].(name := u.name, bio := u.bio, avatar := u.avatar)];
      }
    }

    /** `handleUpdateStaffRole`: sets the role column, whatever the role was. */
    method UpdateStaffRole(userId: string, newRole: UserRole)
      requires Valid()
      modifies this
      ensures Valid()
      ensures profiles == WithRole(old(profiles), userId, newRole)
      ensures files == old(files) && deadlines == old(deadlines)
    {
      if userId in profiles {
        profiles := profiles[userId := profiles[userId].(role := newRole)];
      }
    }

    /** `handleRemoveStaff`: deletes the profile row; the user's files stay. */
    method RemoveStaff(userId: string)
      requires Valid()
      modifies this
      ensures Valid()
      ensures profiles == old(profiles) - {userId}
      ensures files == old(files) && deadlines == old(deadlines)
    {
      profiles := profiles - {userId};
    }

    /** `.from('profiles').insert([row])`; fails when the id is taken. */
    method InsertProfile(row: ProfileRow) returns (ok: bool)
      requires Valid()
      modifies this
      ensures Valid()
      ensures ok <==> row.id !in old(profiles)
      ensures profiles == if ok then old(profiles)[row.id := row] else old(profiles)
      ensures files == old(files) && deadlines == old(deadlines)
    {
      ok := row.id !in profiles;
      if ok {
        profiles := profiles[row.id := row];
      }
    }

    /** `.from('deadlines').insert([d])`; fails when the id is taken. */
    method InsertDeadline(d: Deadline) returns (ok: bool)
      requires Valid()
      modifies this
      ensures Valid()
      ensures ok <==> d.id !in old(deadlines)
      ensures deadlines == if ok then old(deadlines)[d.id := d] else old(deadlines)
      ensures profiles == old(profiles) && files == old(files)
    {
      ok := d.id !in deadlines;
      if ok {
        deadlines := deadlines[d.id := d];
      }
    }
  }
}
