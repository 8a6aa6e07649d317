/** The upload and delete rights of the cloud drive (components/CloudDrive.tsx). */
module Permissions {
  import opened Wrappers
  import opened Types

  /** Admins, heads and co-heads: the staff roles. */
  predicate IsPrivileged(role: UserRole)
  {
    role == Admin || role == Head || role == CoHead
  }

  /** Admins and heads only: the gate of the roster controls, of deadline
      creation and of the staff-only menu entries. */
  predicate IsAdminOrHead(role: UserRole)
  {
    role == Admin || role == Head
  }

  /** The admin-or-head gate is strictly narrower than the staff test:
      co-heads pass the one and not the other, students neither. */
  lemma GatesDiffer(role: UserRole)
    ensures IsAdminOrHead(role) ==> IsPrivileged(role)
    ensures IsPrivileged(role) && !IsAdminOrHead(role) <==> role == CoHead
    ensures !IsPrivileged(role) <==> role == Student
  {
  }

  /** Whether the upload control is offered to `u`. */
  predicate CanUpload(u: User)
  {
    IsPrivileged(u.role) || u.canUpload == Some(true)
  }

  /** Whether the delete control is offered to `u` on file `f`. */
  predicate CanDelete(u: User, f: CodexFile)
  {
    (u.role == Admin && !f.isImmutable) ||
    (u.role == Head && f.ownerRole != Admin) ||
    (u.role == CoHead && f.ownerId == u.id && !f.isImmutable)
  }

  /** Staff may always upload; a student exactly when its `canUpload` is true. */
  lemma UploadRule(u: User)
    ensures u.role != Student ==> CanUpload(u)
    ensures u.role == Student ==> (CanUpload(u) <==> Truthy(u.canUpload))
  {
  }

  /** A student whose flag is false or absent has no upload control. */
  lemma StudentWithoutFlagCannotUpload(u: User)
    requires u.role == Student && u.canUpload != Some(true)
    ensures !CanUpload(u)
  {
  }

  /** An admin may delete exactly the files that are not immutable, whoever owns them. */
  lemma AdminDeleteRule(u: User, f: CodexFile)
    requires u.role == Admin
    ensures CanDelete(u, f) <==> !f.isImmutable
  {
  }

  /** A head may delete exactly the files not uploaded by an admin;
      immutability plays no part in its right. */
  lemma HeadDeleteRule(u: User, f: CodexFile)
    requires u.role == Head
    ensures CanDelete(u, f) <==> f.ownerRole != Admin
    ensures CanDelete(u, f) == CanDelete(u, f.(isImmutable := !f.isImmutable))
  {
  }

  /** A co-head may delete exactly its own files that are not immutable. */
  lemma CoHeadDeleteRule(u: User, f: CodexFile)
    requires u.role == CoHead
    ensures CanDelete(u, f) <==> f.ownerId == u.id && !f.isImmutable
  {
  }

  /** A student can delete nothing, not even its own uploads. */
  lemma StudentNeverDeletes(u: User, f: CodexFile)
    requires u.role == Student
    ensures !CanDelete(u, f)
  {
  }

  /** A file whose `ownerRole` is admin and that is immutable is beyond the
      reach of every role but admin, and admin cannot delete it either. */
  lemma ImmutableAdminFileUndeletable(u: User, f: CodexFile)
    requires f.ownerRole == Admin && f.isImmutable
    ensures !CanDelete(u, f)
  {
  }
}
