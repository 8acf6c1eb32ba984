/**
 * The method-security guards on the task endpoints, and what each endpoint admits once the
 * guard and the service's own checks are combined.
 */
module TaskController {
  import opened Wrappers
  import opened Permissions
  import opened Roles
  import opened Users
  import opened Tasks
  import opened TaskServices

  /** `hasAuthority('<tag>')` against the principal's granted authorities. */
  predicate HasAuthority(authorities: seq<string>, p: Permission)
  {
    Tag(p) in authorities
  }

  /** A guard grants, denies, or fails because an expression inside it threw. */
  datatype Decision = Granted | Denied | GuardFailed(error: TaskError)

  function Check(b: bool): Decision
  {
    if b then Granted else Denied
  }

  /** POST /api/v1/tasks. */
  function CreateGuard(authorities: seq<string>): Decision
  {
    Check(HasAuthority(authorities, TASK_CREATE))
  }

  /**
   * GET /api/v1/tasks: read-all, or read-own with the `assignee` parameter equal to the
   * principal's id (a missing parameter equals no id).
   */
  function ListGuard(authorities: seq<string>, principalId: int, assignee: Option<int>): Decision
  {
    Check(HasAuthority(authorities, TASK_READ_ALL)
      || (HasAuthority(authorities, TASK_READ_OWN) && assignee == Some(principalId)))
  }

  /**
   * The shape `hasAuthority(all) or (hasAuthority(own) and isTaskAssignedToUser(...))`: `or` and
   * `and` short-circuit, so the service is only asked when `all` is missing and `own` present,
   * and a missing task then makes the guard itself throw.
   */
  function AllOrAssignedGuard(authorities: seq<string>, all: Permission, own: Permission,
                              rows: map<int, Task>, taskId: int, principalId: int): Decision
  {
    if HasAuthority(authorities, all) then Granted
    else if !HasAuthority(authorities, own) then Denied
    else match TaskAssignedToUser(rows, taskId, principalId)
      case Err(e) => GuardFailed(e)
      case Ok(b) => Check(b)
  }

  /** GET /api/v1/tasks/{taskId}. */
  function ReadGuard(authorities: seq<string>, rows: map<int, Task>, taskId: int, principalId: int): Decision
  {
    AllOrAssignedGuard(authorities, TASK_READ_ALL, TASK_READ_OWN, rows, taskId, principalId)
  }

  /** PUT /api/v1/tasks/{taskId} and PUT /api/v1/tasks/{taskId}/status. */
  function UpdateGuard(authorities: seq<string>, rows: map<int, Task>, taskId: int, principalId: int): Decision
  {
    AllOrAssignedGuard(authorities, TASK_UPDATE_ALL, TASK_UPDATE_OWN, rows, taskId, principalId)
  }

  /** DELETE /api/v1/tasks/{taskId}. */
  function DeleteGuard(authorities: seq<string>): Decision
  {
    Check(HasAuthority(authorities, TASK_DELETE_ALL))
  }

  /** POST /api/v1/tasks/{taskId}/assign. */
  function AssignGuard(authorities: seq<string>): Decision
  {
    Check(HasAuthority(authorities, TASK_ASSIGN))
  }

  /** GET /api/v1/tasks/my-tasks and GET /api/v1/tasks/created-by-me. */
  function OwnListGuard(authorities: seq<string>): Decision
  {
    Check(HasAuthority(authorities, TASK_READ_OWN))
  }

  /** GET /api/v1/tasks/status/{status}. */
  function StatusListGuard(authorities: seq<string>): Decision
  {
    Check(HasAuthority(authorities, TASK_READ_ALL))
  }

  /**
   * The single-permission guards by role: only USER may create and list its own tasks; only
   * ADMIN may delete, assign and list by status.
   */
  lemma SimpleGuardsByRole(r: Role)
    ensures CreateGuard(Authorities(r)) == Check(r == USER)
    ensures OwnListGuard(Authorities(r)) == Check(r == USER)
    ensures DeleteGuard(Authorities(r)) == Check(r == ADMIN)
    ensures AssignGuard(Authorities(r)) == Check(r == ADMIN)
    ensures StatusListGuard(Authorities(r)) == Check(r == ADMIN)
  {
    match r
    case USER =>
      HasAuthorityIff(USER, TASK_CREATE);
      HasAuthorityIff(USER, TASK_READ_OWN);
      HasAuthorityIff(USER, TASK_DELETE_ALL);
      HasAuthorityIff(USER, TASK_ASSIGN);
      HasAuthorityIff(USER, TASK_READ_ALL);
    case ADMIN =>
      HasAuthorityIff(ADMIN, TASK_CREATE);
      HasAuthorityIff(ADMIN, TASK_READ_OWN);
      HasAuthorityIff(ADMIN, TASK_DELETE_ALL);
      HasAuthorityIff(ADMIN, TASK_ASSIGN);
      HasAuthorityIff(ADMIN, TASK_READ_ALL);
  }

  /** ADMIN may list anything; USER only with the `assignee` filter set to its own id. */
  lemma ListGuardByRole(principalId: int, assignee: Option<int>)
    ensures ListGuard(Authorities(ADMIN), principalId, assignee) == Granted
    ensures ListGuard(Authorities(USER), principalId, assignee) == Granted <==> assignee == Some(principalId)
  {
    HasAuthorityIff(ADMIN, TASK_READ_ALL);
    HasAuthorityIff(USER, TASK_READ_ALL);
    HasAuthorityIff(USER, TASK_READ_OWN);
  }

  /**
   * ADMIN passes the per-task guards without a lookup, even for a missing task. USER passes
   * exactly for tasks assigned to it, is denied for others (its own creations included) and
   * makes the guard throw for a missing task.
   */
  lemma PerTaskGuardsByRole(rows: map<int, Task>, taskId: int, principalId: int)
    ensures ReadGuard(Authorities(ADMIN), rows, taskId, principalId) == Granted
    ensures UpdateGuard(Authorities(ADMIN), rows, taskId, principalId) == Granted
    ensures ReadGuard(Authorities(USER), rows, taskId, principalId)
         == UpdateGuard(Authorities(USER), rows, taskId, principalId)
    ensures UpdateGuard(Authorities(USER), rows, taskId, principalId) ==
      if taskId !in rows then GuardFailed(TaskNotFound)
      else Check(IsAssignee(rows[taskId], principalId))
  {
    HasAuthorityIff(ADMIN, TASK_READ_ALL);
    HasAuthorityIff(ADMIN, TASK_UPDATE_ALL);
    HasAuthorityIff(USER, TASK_READ_ALL);
    HasAuthorityIff(USER, TASK_READ_OWN);
    HasAuthorityIff(USER, TASK_UPDATE_ALL);
    HasAuthorityIff(USER, TASK_UPDATE_OWN);
  }

  /**
   * An update or status change gets past both the guard and the service's ownership check (the
   * service's first check after finding the task).
   */
  predicate UpdateAdmitted(authorities: seq<string>, rows: map<int, Task>, taskId: int, principalId: int)
  {
    UpdateGuard(authorities, rows, taskId, principalId) == Granted
    && taskId in rows && MayModify(rows[taskId], principalId)
  }

  /**
   * The effective update rule: an ADMIN is admitted only for tasks it created or is assigned,
   * although its guard passes for all; a USER only for tasks assigned to it, although the service
   * would also accept its own creations.
   */
  lemma EffectiveUpdateByRole(rows: map<int, Task>, taskId: int, principalId: int)
    ensures UpdateAdmitted(Authorities(ADMIN), rows, taskId, principalId) <==>
      taskId in rows && MayModify(rows[taskId], principalId)
    ensures UpdateAdmitted(Authorities(USER), rows, taskId, principalId) <==>
      taskId in rows && IsAssignee(rows[taskId], principalId)
    ensures taskId in rows && !MayModify(rows[taskId], principalId) ==>
      UpdateGuard(Authorities(ADMIN), rows, taskId, principalId) == Granted
      && !UpdateAdmitted(Authorities(ADMIN), rows, taskId, principalId)
    ensures taskId in rows && IsCreator(rows[taskId], principalId) && !IsAssignee(rows[taskId], principalId) ==>
      MayModify(rows[taskId], principalId)
      && UpdateGuard(Authorities(USER), rows, taskId, principalId) == Denied
  {
    PerTaskGuardsByRole(rows, taskId, principalId);
  }

  /**
   * Assignment needs the assign authority and then creatorship: it gets through exactly for an
   * ADMIN that created the task and names a stored user, and a USER never passes, not even for
   * its own tasks.
   */
  lemma EffectiveAssign(r: Role, t: Task, users: seq<User>, assigneeId: int, principalId: int)
    ensures AssignGuard(Authorities(r)) == Granted && AssignTo(t, users, assigneeId, principalId).Ok? <==>
      r == ADMIN && IsCreator(t, principalId) && FindById(users, assigneeId).Some?
    ensures AssignGuard(Authorities(USER)) == Denied
  {
    SimpleGuardsByRole(r);
    SimpleGuardsByRole(USER);
  }
}
