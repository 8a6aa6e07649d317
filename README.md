# EduLock access rules and submission lifecycle, in Dafny

EduLock is a portal where students upload academic artifacts and staff
(admins, heads and co-heads) review them. This project models its core and
proves properties of the model:

- the four roles, three review states and three deadline priorities, and the
  user, file and deadline records (`Types`);
- the cloud drive's upload and delete rights (`Permissions`);
- the shell's record mappings and its writes to the `profiles` and `files`
  tables: upload, file delete, status update, upload-permission toggle,
  compliance-flag toggle, profile edit, staff role change and removal; and
  the two inserts the pages issue themselves, a student profile from the
  roster and a deadline from the deadline form. The tables, `deadlines`
  included, are maps held by the class `App.Database`. Each method is specified
  by a pure function of the old table (`WithStatus`, `WithOwnerSubmitted`,
  `WithUploadToggled`, `WithFlagToggled`, `WithProfileEdit`, `WithRole`), and
  the properties are proved about those functions (`App`);
- the views:
  - the review queue: student-file listing, status filter, selection,
    approve, reject, bulk approve and the CSV export (`Submissions`);
  - the verification tracker: search, sort, counts and report (`Verification`);
  - the student roster and registration (`Roster`);
  - the staff hierarchy (`Staff`);
  - the role-filtered menu (`Menu`);
  - the deadline form (`Deadlines`);
  - the dashboard progress (`Dashboard`);
- the sign-in screen with its bounded profile-fetch loop (`Login`).

The helper modules follow the JavaScript built-ins the components use:
- `Seqs`: `filter`, `find`, `join`, `slice`;
- `Text`: ASCII case mapping, `includes`, code-point string order, the
  `x || fallback` default;
- `Sorting`: a stable sort by a string key;
- `Csv`: the comma-joined export text.

Where a natural reading of the portal's design and its code differ, the model
follows the code:
- Review decisions are not final. `handleUpdateStatus` writes any status
  whatever the current one is, so an approved file can be rejected and the
  other way round.
- The store does not require a rejection reason. Only the reject button
  checks that the reason is non-empty.
- Approving without a reason leaves the key `undefined`, and the request body
  drops such a key. A previously rejected file therefore keeps its old
  rejection reason after approval.
- `isVerified ⇒ isSubmitted` is not kept by the store. The tracker only
  disables the verify button for unsubmitted students. The store toggle
  flips one column, so a verified student whose submission is withdrawn
  stays verified.
- `toggleAll` compares the selection's length with the visible count. It
  does not compare the ids.

## Model

| member | source | states |
|---|---|---|
| Types.RoleNameRoundTrip | types.ts:2-7 | the four roles have distinct string values, and reading a value back gives the role |
| Types.StatusNameRoundTrip | types.ts:9-13 | the three review states have distinct string values, and reading a value back gives the state |
| Types.PriorityNameRoundTrip | types.ts:61 | the three priorities low, medium and high read back to themselves |
| Permissions.UploadRule | components/CloudDrive.tsx:16-17 | staff may always upload; a student may exactly when its `canUpload` is true |
| Permissions.StudentWithoutFlagCannotUpload | components/CloudDrive.tsx:17 | a student whose flag is false or absent has no upload control |
| Permissions.AdminDeleteRule | components/CloudDrive.tsx:56 | an admin may delete exactly the files that are not immutable, whoever owns them |
| Permissions.HeadDeleteRule | components/CloudDrive.tsx:57 | a head may delete exactly the files not owned by an admin; immutability plays no part |
| Permissions.CoHeadDeleteRule | components/CloudDrive.tsx:58 | a co-head may delete only its own files that are not immutable |
| Permissions.StudentNeverDeletes | components/CloudDrive.tsx:55-58 | a student can delete no file, not even its own |
| Permissions.ImmutableAdminFileUndeletable | components/CloudDrive.tsx:55-58 | an immutable admin-owned file can be deleted by no role |
| Permissions.GatesDiffer | components/UserManagement.tsx:29 | the admin-or-head gate implies the staff test, and co-heads are exactly the roles that pass the staff test but not the gate |
| App.MapProfileRoundTrip | App.tsx:32-47 | `mapProfile` copies every column unchanged: it has an exact inverse |
| App.MapFileRoundTrip | App.tsx:49-61 | `mapFile` copies every column unchanged: it has an exact inverse |
| App.NewFileRowFacts | App.tsx:157-166 | the uploaded record has the uploader's id and role, is immutable exactly for an admin, pending exactly for a student, and has no status for staff |
| App.AdminFilesUndeletable | App.tsx:163 | a well-formed admin file cannot be deleted by any user |
| App.AdminUploadUndeletable | App.tsx:163 | whatever an admin uploads is out of every role's delete reach |
| App.StatusWriteEffect | App.tsx:171 | the status write changes one row; it sets the status whatever it was, and changes the reason only when one is given |
| App.DecisionsCanBeReversed | App.tsx:170-171 | an approved file can be rejected and a rejected one approved |
| App.ApprovalKeepsRejectionReason | App.tsx:171 | approving a rejected file without a reason keeps the old reason |
| App.StaffFileCanGetStatus | App.tsx:171 | the write does not check the owner, so a status-less staff file gets a status |
| App.ApprovalMarksOwnerSubmitted | App.tsx:172-176 | approving a student file found in the local list sets exactly that student's `is_submitted`, and nothing else |
| App.OwnerWriteOnlyOnStudentApproval | App.tsx:172-177 | pending and rejected decisions, unknown files and staff files write no profile |
| App.ApprovalIdempotent | App.tsx:170-178 | approving twice leaves both tables as approving once does |
| App.UploadToggleEffect | App.tsx:141-146 | the upload toggle writes only the `can_upload` column of one row |
| App.UploadToggleUnknownId | App.tsx:142-143 | an id missing from the local user list causes no write |
| App.UploadToggleNegates | App.tsx:144-145 | with the local list in step with the table, the toggle negates the stored flag |
| App.UploadToggleTwice | App.tsx:141-146 | toggling twice, with the list refreshed in between, restores the flag; an absent flag comes back as false |
| App.FlagToggleEffect | App.tsx:197-201 | the tracker toggle writes only the chosen column of one row; the other flag is unchanged |
| App.FlagToggleNegates | App.tsx:198-200 | with the local list in step with the table, the toggle writes the negation of the stored flag into the chosen column, in every case |
| App.FlagToggleTwice | App.tsx:197-201 | toggling a flag twice, with the list refreshed in between, restores it and every other row; an absent flag comes back as false |
| App.VerifiedWithoutSubmittedReachable | App.tsx:197-201 | withdrawing a verified student's submission leaves it verified and not submitted |
| App.VerifyWithoutSubmission | App.tsx:197-201 | the store verifies a student that is not submitted |
| App.FlagToggleUnknownSets | App.tsx:199-200 | for a user missing from the local list the current value reads undefined, so the flag is set to true |
| App.ProfileEditEffect | App.tsx:203-206 | the profile edit writes name, bio and avatar only; role, flags and other rows stay |
| App.Database.Upload | App.tsx:148-168 | nothing is inserted without a user or after a storage failure; otherwise the new record is added under a fresh id |
| App.Database.UpdateStatus | App.tsx:170-178 | the file table becomes `WithStatus` and the profile table `WithOwnerSubmitted` of the old ones |
| App.Database.ToggleUploadPermission | App.tsx:141-146 | the profile table becomes `WithUploadToggled` of the old one; files and deadlines stay |
| App.Database.ToggleFlag | App.tsx:197-201 | the profile table becomes `WithFlagToggled` of the old one |
| App.Database.EditProfile | App.tsx:203-206 | the profile table becomes `WithProfileEdit` of the old one |
| App.Database.UpdateStaffRole | App.tsx:133-135 | sets the role column of one row, whatever the role was |
| App.Database.RemoveStaff | App.tsx:137-139 | deletes the profile row; the user's files stay |
| App.Database.StoredAdminFilesUndeletable | App.tsx:163 | in a valid database no user may delete a stored admin file |
| App.Database.DeleteFile | components/CloudDrive.tsx:55-74 | the drive deletes a file exactly when its delete rule allows it, and the shell's write then removes that row only; a stored admin file is never removed |
| App.Database.InsertProfile | components/UserManagement.tsx:63 | the insert adds the row under its id and fails, changing nothing, when the id is taken |
| App.Database.InsertDeadline | components/DeadlineSystem.tsx:19 | the insert adds the deadline under its id and fails, changing nothing, when the id is taken |
| Seqs.Find | App.tsx:142 | `find` returns an element with the key, and nothing exactly when no element has it |
| Seqs.FilterMembership | components/UserManagement.tsx:30 | an element survives `filter` exactly when it is in the input and passes the test |
| Seqs.FilterIsSubsequence | components/UserManagement.tsx:32-40 | `filter` keeps the input order |
| Text.ContainsAt | components/VerificationTracker.tsx:16-17 | `includes` holds exactly when the term occurs at some index |
| Text.OrElse | components/VerificationTracker.tsx:25 | `x \|\| fallback` gives the fallback for a missing or empty string, and the string otherwise |
| Sorting.SortBySorted | components/VerificationTracker.tsx:19 | the sort orders by the key |
| Sorting.SortBy | components/VerificationTracker.tsx:19 | the sort is a permutation of its input |
| Submissions.StudentFilesSpec | components/SubmissionManager.tsx:15-21 | the listing is a permutation of the student files, each paired with its owner from the user list (each as often as given), ascending by enrollment id; an entry is listed exactly when its file is a student file and its owner is the one found |
| Submissions.FilteredFilesSpec | components/SubmissionManager.tsx:23 | ALL shows the listing unchanged; a status shows exactly the entries in that status, in listing order |
| Submissions.ToggledSpec | components/SubmissionManager.tsx:25-27 | toggling flips the membership of that id and of no other |
| Submissions.ToggleTwice | components/SubmissionManager.tsx:25-27 | toggling an id twice restores the selection as a set |
| Submissions.ToggleAllSpec | components/SubmissionManager.tsx:29-35 | toggle-all clears exactly when the lengths match, otherwise it selects exactly the visible files |
| Submissions.ToggleAllComparesLengthOnly | components/SubmissionManager.tsx:30 | a same-length selection of other ids is cleared, not replaced |
| Submissions.ApproveAllEffect | components/SubmissionManager.tsx:39 | bulk approval sets exactly the selected rows to approved and keeps every other column, rejection reason included |
| Submissions.MarkAllSubmittedEffect | components/SubmissionManager.tsx:39 | bulk approval marks submitted exactly the student owners of the selected files |
| Submissions.SubmissionManager.constructor | components/SubmissionManager.tsx:12-13 | the page opens with nothing selected and the ALL filter |
| Submissions.SubmissionManager.SetFilter | components/SubmissionManager.tsx:84 | the filter becomes the chosen one and the selection stays as it was |
| Submissions.SubmissionManager.BulkApprove | components/SubmissionManager.tsx:37-42 | on confirmation, one approval per selected id in order, then the selection is empty; without it nothing changes |
| Submissions.SubmissionManager.ToggleSelect | components/SubmissionManager.tsx:25-27 | the selection becomes `Toggled` of the old one |
| Submissions.SubmissionManager.ToggleAll | components/SubmissionManager.tsx:29-35 | the selection becomes `AfterToggleAll` of the old one and the visible files |
| Submissions.SubmissionManager.Approve | components/SubmissionManager.tsx:172 | approve is offered on every row, whatever its status |
| Submissions.SubmissionManager.Reject | components/SubmissionManager.tsx:181-184 | the rejection is written only for a non-empty answer, and then with that reason |
| Submissions.ExportRowShape | components/SubmissionManager.tsx:44-52 | each export row has five cells with the file's name and time as they are; the owner's enrollment id and name are written as they are, and read N/A when the owner is unknown or the value is missing or empty; the status cell reads back to the status or is empty |
| Submissions.Export | components/SubmissionManager.tsx:44-55 | the export is the data-URI prefix, the header line, then one line per listed file in table order; with nothing listed, the header line and a line break |
| Verification.SortedStudentsSpec | components/VerificationTracker.tsx:13-20 | the listing is a permutation of the matching students (each as often as given), ascending by enrollment id; a student is listed exactly when it matches the search |
| Verification.EmptySearchKeepsEveryone | components/VerificationTracker.tsx:15-18 | an empty search keeps every student |
| Verification.TotalSubmitted | components/VerificationTracker.tsx:45 | the submitted count is at most the number of students |
| Verification.TotalVerified | components/VerificationTracker.tsx:46 | the verified count is at most the number of students |
| Verification.VerifiedAtMostSubmitted | components/VerificationTracker.tsx:45-46 | where verified implies submitted, there are no more verifications than submissions |
| Verification.PercentDenominator | components/VerificationTracker.tsx:81 | the denominator is never zero, and is the count when there are students |
| Verification.BadgeNeedsSubmission | components/VerificationTracker.tsx:129 | the badge needs both flags; an unsubmitted student has no badge and no enabled verify toggle |
| Verification.ReportShape | components/VerificationTracker.tsx:23-34 | five header columns, one five-cell row per listed student in order, flags as YES/NO; an id or join date is written as it is, and a missing or empty one reads N/A |
| Verification.Report | components/VerificationTracker.tsx:22-34 | the report is the data-URI prefix, the header line, then one line per listed student in listing order; with nobody listed, the header line and a line break |
| Csv.Document | components/VerificationTracker.tsx:32-34 | after the data-URI prefix comes the header line and then one line per row, in order; with no rows, the header line and a line break |
| Csv.CellsAreNotEscaped | components/VerificationTracker.tsx:32-34 | cells are not quoted, so two different rows can render as the same line |
| Roster.FilteredStudentsSpec | components/UserManagement.tsx:30-40 | a user is listed exactly when it is a student passing the semester, section and search tests, in student-list order |
| Roster.NoFilterListsEveryStudent | components/UserManagement.tsx:32-40 | with no filter and an empty search every student is listed |
| Roster.NewStudentRowFacts | components/UserManagement.tsx:49-61 | a new student has role STUDENT, all flags false, no upload right, the form's fields and an avatar seeded by the enrollment id |
| Roster.RosterPage.constructor | components/UserManagement.tsx:14-27 | the page opens with the dialog closed, not registering, and a blank form with semester 1 and section A |
| Roster.RosterPage.OpenAddModal | components/UserManagement.tsx:84 | the add button opens the dialog and keeps the form and the registering flag |
| Roster.RosterPage.EditForm | components/UserManagement.tsx:203-221 | a form field edit replaces the form and leaves the dialog and the registering flag as they were |
| Roster.RosterPage.HandleAddUser | components/UserManagement.tsx:45-73 | a successful insert closes the dialog and resets the form; a failed one keeps both; registering is over either way |
| Staff.StaffOfSpec | components/StaffManagement.tsx:17 | the staff list is exactly the heads and co-heads |
| Staff.TargetRole | components/StaffManagement.tsx:81-97 | the button targets a staff role different from the member's |
| Staff.TargetRoleSwaps | components/StaffManagement.tsx:81-97 | promote and demote undo each other |
| Staff.StaffRoleActionTwice | components/StaffManagement.tsx:81-97 | pressing the role button twice leaves the profile table as it was |
| Staff.StaffPage.constructor | components/StaffManagement.tsx:13-14 | the page opens with the dialog closed and a blank form whose role is CO_HEAD |
| Staff.StaffPage.OpenAddModal | components/StaffManagement.tsx:34 | the add button opens the dialog and keeps the form |
| Staff.StaffPage.EditForm | components/StaffManagement.tsx:138-170 | a form edit, role buttons included, replaces the form and leaves the dialog as it was |
| Staff.StaffPage.ChangeRole | components/StaffManagement.tsx:81-97 | the role button writes `TargetRole` of the member's role into its row (co-head to head, anyone else to co-head) and nothing else |
| Staff.StaffPage.HandleAddSubmit | components/StaffManagement.tsx:19-24 | the form returns to its CO_HEAD default and no table is written |
| Staff.StaffPage.Remove | components/StaffManagement.tsx:99-101 | the row is deleted only after confirmation |
| Menu.TabIdsDistinct | components/Sidebar.tsx:18-26 | no two entries share an id, so an entry is known by its id |
| Menu.StaffEntries | components/Sidebar.tsx:18-26 | the submissions, verification, roster and staff entries are exactly the ones listed for admins and heads only; the other five are listed for all four roles |
| Menu.VisibleAroundStaffEntries | components/Sidebar.tsx:17-29 | every role sees the first three and the last two entries; only the four staff entries depend on the role |
| Menu.AllMenuTabs | components/Sidebar.tsx:17-27 | the table lists the nine tabs in the order dashboard, drive, calendar, submissions, verification, users, staff, ai, profile |
| Menu.AdminHeadMenu | components/Sidebar.tsx:17-29 | admins and heads see the whole table, in table order |
| Menu.CommonMenu | components/Sidebar.tsx:17-29 | co-heads and students see exactly the dashboard, drive, calendar, ai and profile entries, in that order |
| Menu.VisibleMenuMembership | components/Sidebar.tsx:21-24 | an entry is visible exactly when the role is in its list; a staff tab is visible only to admins and heads |
| Menu.VisibleMenuOrder | components/Sidebar.tsx:29 | the visible entries keep the table order |
| Deadlines.DeadlineCreators | components/DeadlineSystem.tsx:15 | deadline creation is offered exactly to admins and heads |
| Deadlines.DeadlineOf | components/DeadlineSystem.tsx:19 | the inserted deadline carries the form's fields |
| Deadlines.DeadlinePage.constructor | components/DeadlineSystem.tsx:12-13 | the page opens with the form hidden and blank, at medium priority |
| Deadlines.DeadlinePage.OpenAdd | components/DeadlineSystem.tsx:35 | the add button shows the form and keeps its contents |
| Deadlines.DeadlinePage.EditForm | components/DeadlineSystem.tsx:71-84 | a form field edit replaces the form and leaves it shown or hidden as it was |
| Deadlines.DeadlinePage.HandleAdd | components/DeadlineSystem.tsx:17-24 | a successful insert closes and resets the form to medium priority; a failed one keeps it |
| Dashboard.DashboardStaffTest | components/Dashboard.tsx:13 | the dashboard's test is false only for students |
| Dashboard.ApprovedCountSpec | components/Dashboard.tsx:14-15 | own files are exactly those owned; the count is of own approved files and at most their number |
| Dashboard.ProgressPercent | components/Dashboard.tsx:16 | the progress is at most 100, is 20 per approval below five and 100 from five on |
| Dashboard.ProgressMonotone | components/Dashboard.tsx:16 | more approvals never lower the progress |
| Dashboard.RecentDeadlines | components/Dashboard.tsx:64 | at most the first three deadlines, in given order |
| Login.FirstAnswered | components/LoginPage.tsx:37-45 | the first query index in range that holds a profile, and none exactly when all fail |
| Login.FetchProfile | components/LoginPage.tsx:34-50 | at most three queries; stops at the first profile; a profile exactly when one of the first three queries answers; each failure spends one retry |
| Login.LoginUserVersusMapProfile | components/LoginPage.tsx:52-68 | the sign-in record equals `mapProfile` without semester and section |
| Login.DeniedMessage | components/LoginPage.tsx:27 | the message is "ACCESS DENIED: " followed by the provider message upper-cased |
| Login.MessagesDiffer | components/LoginPage.tsx:27-70 | the authentication and missing-profile messages never coincide |
| Login.LoginPage.constructor | components/LoginPage.tsx:13-14 | the screen opens not authenticating and with no error |
| Login.LoginPage.HandleLogin | components/LoginPage.tsx:16-74 | an auth error sets the denied message and stops without a query; no session changes nothing; otherwise a found profile signs in and a missing one sets the not-initialized message |

## Left out

- All I/O. The remote database, storage, authentication and change feed are
  not modelled as such. The tables are in-memory maps, and remote answers are
  parameters: the storage failure, the assigned id and URL, the auth reply and
  the profile queries' results.
- Remote write failures. An insert fails only when its id is taken. Updates
  and deletes always succeed.
- Asynchrony. Writes that the code issues without waiting (one per selected
  id in a bulk approval) are taken to apply in issue order.
- `onLogin` and the shell's other React state updates. The session effects and
  change-feed refetches are not part of this model. The local user and file
  lists that handlers consult are parameters; `App.Projects` states when such
  a list matches the table.
- `formatSize` in the drive, the floating-point percentages of the tracker and
  the dates (`join_date`, timestamps, file names): floating point and clocks.
- `localeCompare` is taken as code-point order, and `toLowerCase` and
  `toUpperCase` map ASCII letters only.
- The `setTimeout` back-off between profile queries, and the `confirm` and
  `prompt` dialogs; the dialogs' answers are parameters.
- The `type` column of a file is `file_type` in the model. The `as UserRole`
  and `as SubmissionStatus` casts are taken to hold.
- The `required` attributes of the form inputs: the browser's form validation
  is not part of this model.
- The AI assistant, audit log, footer and profile page components, and the
  mock fixtures. The profile page's one store write is `App.Database.EditProfile`.
- Sorting.SortBy: stability is not stated, only order and permutation.
- Seqs.Find: that the element found is the first with the key is not stated.
