/** The task record and its two enums. */
module Tasks {
  import opened Wrappers
  import opened Users

  datatype TaskStatus = TODO | IN_PROGRESS | DONE

  datatype TaskPriority = LOW | MEDIUM | HIGH

  /**
   * A persisted task. `assignee` is None for a null assignee; `creator` is always present.
   * The audit timestamps are opaque instants.
   */
  datatype Task = Task(
    id: int,
    title: string,
    description: Option<string>,
    status: TaskStatus,
    priority: TaskPriority,
    assignee: Option<User>,
    creator: User,
    createdAt: int,
    updatedAt: int
  )

  /** The task's assignee is the user with id `userId`; an unassigned task has no assignee. */
  predicate IsAssignee(t: Task, userId: int)
  {
    t.assignee.Some? && t.assignee.value.id == userId
  }

  /** The user with id `userId` created the task. */
  predicate IsCreator(t: Task, userId: int)
  {
    t.creator.id == userId
  }

  /** The ownership rule of the service: creator or assignee. */
  predicate MayModify(t: Task, userId: int)
  {
    IsCreator(t, userId) || IsAssignee(t, userId)
  }

  function StatusName(s: TaskStatus): string
  {
    match s
    case TODO => "TODO"
    case IN_PROGRESS => "IN_PROGRESS"
    case DONE => "DONE"
  }

  /** `TaskStatus.valueOf(s)`: an unknown name throws, modelled as None. */
  function StatusValueOf(s: string): Option<TaskStatus>
  {
    if s == "TODO" then Some(TODO)
    else if s == "IN_PROGRESS" then Some(IN_PROGRESS)
    else if s == "DONE" then Some(DONE)
    else None
  }

  function PriorityName(p: TaskPriority): string
  {
    match p
    case LOW => "LOW"
    case MEDIUM => "MEDIUM"
    case HIGH => "HIGH"
  }

  /** `TaskPriority.valueOf(s)`: an unknown name throws, modelled as None. */
  function PriorityValueOf(s: string): Option<TaskPriority>
  {
    if s == "LOW" then Some(LOW)
    else if s == "MEDIUM" then Some(MEDIUM)
    else if s == "HIGH" then Some(HIGH)
    else None
  }

  /** Enum names parse back to their constant, and only enum names parse. */
  lemma ValueOfRoundTrip(st: TaskStatus, p: TaskPriority, s: string)
    ensures StatusValueOf(StatusName(st)) == Some(st)
    ensures StatusValueOf(s) == Some(st) ==> s == StatusName(st)
    ensures PriorityValueOf(PriorityName(p)) == Some(p)
    ensures PriorityValueOf(s) == Some(p) ==> s == PriorityName(p)
  {
  }
}
