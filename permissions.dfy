/** The capability tags of the security layer (the Permission enum). */
module Permissions {
  import opened Wrappers

  /** The nine enum constants, named as in the source. */
  datatype Permission =
    | TASK_READ_ALL
    | TASK_UPDATE_ALL
    | TASK_CREATE_ALL
    | TASK_DELETE_ALL
    | TASK_ASSIGN
    | TASK_READ_OWN
    | TASK_UPDATE_OWN
    | TASK_CREATE
    | USER_READ_ALL

  /** `getPermission()`: the authority string each constant carries. */
  function Tag(p: Permission): string
  {
    match p
    case TASK_READ_ALL => "task:read:all"
    case TASK_UPDATE_ALL => "task:update:all"
    case TASK_CREATE_ALL => "task:create:all"
    case TASK_DELETE_ALL => "task:delete:all"
    case TASK_ASSIGN => "task:assign"
    case TASK_READ_OWN => "task:read:own"
    case TASK_UPDATE_OWN => "task:update:own"
    case TASK_CREATE => "task:create"
    case USER_READ_ALL => "user:read:all"
  }

  /** The reverse lookup from an authority string to the permission carrying it. */
  function FromTag(s: string): Option<Permission>
  {
    if s == "task:read:all" then Some(TASK_READ_ALL)
    else if s == "task:update:all" then Some(TASK_UPDATE_ALL)
    else if s == "task:create:all" then Some(TASK_CREATE_ALL)
    else if s == "task:delete:all" then Some(TASK_DELETE_ALL)
    else if s == "task:assign" then Some(TASK_ASSIGN)
    else if s == "task:read:own" then Some(TASK_READ_OWN)
    else if s == "task:update:own" then Some(TASK_UPDATE_OWN)
    else if s == "task:create" then Some(TASK_CREATE)
    else if s == "user:read:all" then Some(USER_READ_ALL)
    else None
  }

  /** The constants in declaration order (`Permission.values()`). */
  const AllPermissions: seq<Permission> := [
    TASK_READ_ALL, TASK_UPDATE_ALL, TASK_CREATE_ALL, TASK_DELETE_ALL, TASK_ASSIGN,
    TASK_READ_OWN, TASK_UPDATE_OWN, TASK_CREATE, USER_READ_ALL
  ]

  /** Reading a constant's tag back yields the constant, and only tags of constants read back. */
  lemma TagRoundTrip(p: Permission, s: string)
    ensures FromTag(Tag(p)) == Some(p)
    ensures FromTag(s) == Some(p) ==> Tag(p) == s
  {
  }

  /** Distinct constants carry distinct tags, so an authority string names one permission. */
  lemma TagInjective(p: Permission, q: Permission)
    ensures Tag(p) == Tag(q) ==> p == q
  {
    TagRoundTrip(p, Tag(q));
    TagRoundTrip(q, Tag(q));
  }

  /** `task:create` and `task:create:all` are different authorities. */
  lemma CreateTagsDiffer()
    ensures Tag(TASK_CREATE) != Tag(TASK_CREATE_ALL)
    ensures Tag(TASK_CREATE) == "task:create" && Tag(TASK_CREATE_ALL) == "task:create:all"
  {
  }

  /** The enum has exactly nine constants: the list holds every one, once. */
  lemma ExactlyNine(p: Permission)
    ensures p in AllPermissions
    ensures |AllPermissions| == 9
    ensures forall i, j :: 0 <= i < j < |AllPermissions| ==> AllPermissions[i] != AllPermissions[j]
  {
  }
}
