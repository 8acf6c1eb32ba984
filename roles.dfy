/** The static role table (the Role enum) and the authority list a principal carries. */
module Roles {
  import opened Wrappers
  import opened Text
  import opened Seqs
  import opened Permissions

  datatype Role = USER | ADMIN

  /** `Enum.name()`. */
  function Name(r: Role): string
  {
    match r
    case USER => "USER"
    case ADMIN => "ADMIN"
  }

  /** `Role.valueOf(s)`: an unknown name throws, modelled as None. */
  function ValueOf(s: string): Option<Role>
  {
    if s == "USER" then Some(USER) else if s == "ADMIN" then Some(ADMIN) else None
  }

  /** The permission set each constant is built with. */
  function RolePermissions(r: Role): set<Permission>
  {
    match r
    case USER => {TASK_READ_OWN, TASK_UPDATE_OWN, TASK_CREATE, USER_READ_ALL}
    case ADMIN => {TASK_READ_ALL, TASK_UPDATE_ALL, TASK_DELETE_ALL, TASK_CREATE_ALL, TASK_ASSIGN, USER_READ_ALL}
  }

  /**
   * One iteration order of the permission set. `Set.of` fixes no order, so nothing below
   * depends on this one beyond membership and length.
   */
  function PermissionList(r: Role): seq<Permission>
  {
    match r
    case USER => [TASK_READ_OWN, TASK_UPDATE_OWN, TASK_CREATE, USER_READ_ALL]
    case ADMIN => [TASK_READ_ALL, TASK_UPDATE_ALL, TASK_DELETE_ALL, TASK_CREATE_ALL, TASK_ASSIGN, USER_READ_ALL]
  }

  /** The stream `map(permission -> authority(permission.getPermission()))`. */
  function Tags(ps: seq<Permission>): (r: seq<string>)
    ensures |r| == |ps|
  {
    if ps == [] then [] else [Tag(ps[0])] + Tags(ps[1..])
  }

  /** The k-th authority is the tag of the k-th permission: the mapping keeps order and contents. */
  lemma {:induction false} TagsAt(ps: seq<Permission>)
    ensures forall k :: 0 <= k < |ps| ==> Tags(ps)[k] == Tag(ps[k])
  {
    if ps != [] {
      TagsAt(ps[1..]);
    }
  }

  /** The role authority appended after the permission authorities. */
  function RoleAuthority(r: Role): string
  {
    "ROLE_" + Name(r)
  }

  /** `getAuthorities()`: one authority per permission, then `ROLE_<name>`. */
  function Authorities(r: Role): seq<string>
  {
    Tags(PermissionList(r)) + [RoleAuthority(r)]
  }

  /** Role names parse back to their role, and only role names parse. */
  lemma ValueOfName(r: Role, s: string)
    ensures ValueOf(Name(r)) == Some(r)
    ensures ValueOf(s) == Some(r) ==> s == Name(r)
  {
  }

  /** The list enumerates the set: same elements, each once. */
  lemma PermissionListEnumerates(r: Role)
    ensures (set p | p in PermissionList(r)) == RolePermissions(r)
    ensures Distinct(PermissionList(r))
    ensures |PermissionList(r)| == |RolePermissions(r)|
  {
    DistinctCardinality(PermissionList(r));
  }

  /** An authority string appears among the tags exactly when its permission is in the list. */
  lemma {:induction false} TagsMembership(ps: seq<Permission>, p: Permission)
    ensures Tag(p) in Tags(ps) <==> p in ps
  {
    if ps != [] {
      TagsMembership(ps[1..], p);
      TagInjective(p, ps[0]);
      assert ps == [ps[0]] + ps[1..];
    }
  }

  /** Every tag begins with a lower-case resource name, never with `ROLE_`. */
  lemma {:induction false} TagsAreNotRoleAuthorities(ps: seq<Permission>, q: Role)
    ensures RoleAuthority(q) !in Tags(ps)
  {
    if ps != [] {
      TagsAreNotRoleAuthorities(ps[1..], q);
      assert Tag(ps[0])[0] != RoleAuthority(q)[0];
    }
  }

  /** getAuthorities yields |permissions| + 1 authorities, the last being the role's. */
  lemma AuthoritiesShape(r: Role)
    ensures |Authorities(r)| == |RolePermissions(r)| + 1
    ensures Authorities(r)[|Authorities(r)| - 1] == "ROLE_" + Name(r)
  {
    PermissionListEnumerates(r);
  }

  /** A principal holds a permission's authority exactly when its role holds that permission. */
  lemma HasAuthorityIff(r: Role, p: Permission)
    ensures Tag(p) in Authorities(r) <==> p in RolePermissions(r)
  {
    PermissionListEnumerates(r);
    TagsMembership(PermissionList(r), p);
    assert Tag(p)[0] != RoleAuthority(r)[0];
  }

  /** A principal carries its own role authority and not the other role's. */
  lemma HasRoleAuthorityIff(r: Role, q: Role)
    ensures RoleAuthority(q) in Authorities(r) <==> q == r
  {
    TagsAreNotRoleAuthorities(PermissionList(r), q);
  }

  /** The two roles split by scope, and both may read users. */
  lemma RolesSplitByScope()
    ensures TASK_READ_ALL !in RolePermissions(USER) && TASK_UPDATE_ALL !in RolePermissions(USER)
    ensures TASK_DELETE_ALL !in RolePermissions(USER) && TASK_CREATE_ALL !in RolePermissions(USER)
    ensures TASK_ASSIGN !in RolePermissions(USER)
    ensures TASK_READ_OWN !in RolePermissions(ADMIN) && TASK_UPDATE_OWN !in RolePermissions(ADMIN)
    ensures TASK_CREATE !in RolePermissions(ADMIN)
    ensures USER_READ_ALL in RolePermissions(USER) && USER_READ_ALL in RolePermissions(ADMIN)
    ensures |RolePermissions(USER)| == 4 && |RolePermissions(ADMIN)| == 6
  {
    PermissionListEnumerates(USER);
    PermissionListEnumerates(ADMIN);
  }
}
