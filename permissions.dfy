/**
 * Role-based permissions (Models/Permissions.cs): a role holds every permission granted to any
 * role whose numeric value is at most its own.
 */
module Permissions {

  /** Role is an enum over int; a cast `(Role)user.role` can hold any value. */
  type Role = int

  const RoleNone: Role := 0
  const SiteAdministrator: Role := 20

  datatype Permission = CreateCategory | UpdateCategory | DeleteCategory

  /** ExtraGrants: role to granted permissions, in the dictionary's enumeration order. */
  type Grants = seq<(Role, seq<Permission>)>

  /** The grants PermissionService is constructed with; it never changes them. */
  const DefaultGrants: Grants := [(SiteAdministrator, [CreateCategory])]

  /** True when some grant of a role at most `role` lists p. */
  ghost predicate Granted(grants: Grants, role: Role, p: Permission)
  {
    exists i :: 0 <= i < |grants| && grants[i].0 <= role && p in grants[i].1
  }

  /**
   * GetAllPermissions: the grants of every role whose value is at most `role`, concatenated in
   * enumeration order (`Where` then `SelectMany`).
   */
  function GetAllPermissions(grants: Grants, role: Role): (r: seq<Permission>)
    ensures forall p :: p in r <==> Granted(grants, role, p)
  {
    if grants == [] then []
    else
      var rest := GetAllPermissions(grants[1..], role);
      assert forall p :: Granted(grants, role, p) <==>
        (grants[0].0 <= role && p in grants[0].1) || Granted(grants[1..], role, p) by {
        forall p ensures Granted(grants, role, p) ==>
          (grants[0].0 <= role && p in grants[0].1) || Granted(grants[1..], role, p) {
          if Granted(grants, role, p) {
            var i :| 0 <= i < |grants| && grants[i].0 <= role && p in grants[i].1;
            if i > 0 { assert grants[1..][i - 1] == grants[i]; }
          }
        }
        forall p ensures Granted(grants[1..], role, p) ==> Granted(grants, role, p) {
          if Granted(grants[1..], role, p) {
            var i :| 0 <= i < |grants[1..]| && grants[1..][i].0 <= role && p in grants[1..][i].1;
            assert grants[i + 1] == grants[1..][i];
          }
        }
      }
      (if grants[0].0 <= role then grants[0].1 else []) + rest
  }

  /** CanDo: the role holds the permission exactly when some grant at or below it lists it. */
  function CanDo(grants: Grants, role: Role, p: Permission): (r: bool)
    ensures r <==> p in GetAllPermissions(grants, role)
    ensures r <==> Granted(grants, role, p)
  {
    p in GetAllPermissions(grants, role)
  }

  /** A higher role keeps every grant of a lower one, with its multiplicity. */
  lemma {:induction false} GetAllPermissionsMonotone(grants: Grants, r1: Role, r2: Role)
    requires r1 <= r2
    ensures multiset(GetAllPermissions(grants, r1)) <= multiset(GetAllPermissions(grants, r2))
  {
    if grants != [] {
      GetAllPermissionsMonotone(grants[1..], r1, r2);
    }
  }

  /** With the shipped grants only roles from SiteAdministrator up hold anything: CreateCategory. */
  lemma DefaultGrantsByRole(role: Role)
    ensures GetAllPermissions(DefaultGrants, role) == if role >= SiteAdministrator then [CreateCategory] else []
    ensures !CanDo(DefaultGrants, RoleNone, CreateCategory)
    ensures CanDo(DefaultGrants, SiteAdministrator, CreateCategory)
    ensures !CanDo(DefaultGrants, role, UpdateCategory) && !CanDo(DefaultGrants, role, DeleteCategory)
  {
    assert DefaultGrants[1..] == [];
  }
}
