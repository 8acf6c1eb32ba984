/** The task projection returned by every task endpoint. */
module TaskResponses {
  import opened Wrappers
  import opened Users
  import opened Tasks

  /** The nested user projection: id, username and email only. */
  datatype UserSummary = UserSummary(id: int, username: string, email: string)

  datatype TaskResponse = TaskResponse(
    id: int,
    title: string,
    description: Option<string>,
    status: TaskStatus,
    priority: TaskPriority,
    assignee: Option<UserSummary>,
    creator: UserSummary,
    createdAt: int,
    updatedAt: int
  )

  function Summarize(u: User): UserSummary
  {
    UserSummary(u.id, u.username, u.email)
  }

  /** `fromTask`. */
  function FromTask(t: Task): TaskResponse
  {
    TaskResponse(
      t.id, t.title, t.description, t.status, t.priority,
      if t.assignee.Some? then Some(Summarize(t.assignee.value)) else None,
      Summarize(t.creator),
      t.createdAt, t.updatedAt)
  }

  /** `map(TaskResponse::fromTask)` over a list of tasks. */
  function FromTasks(ts: seq<Task>): (r: seq<TaskResponse>)
    ensures |r| == |ts|
    ensures forall k :: 0 <= k < |ts| ==> r[k] == FromTask(ts[k]) && r[k].id == ts[k].id
  {
    seq(|ts|, k requires 0 <= k < |ts| => FromTask(ts[k]))
  }

  /** Two users project alike exactly when id, username and email agree: password and role never show. */
  lemma SummaryForgetsCredentials(u: User, v: User)
    ensures Summarize(u) == Summarize(v) <==> u.id == v.id && u.username == v.username && u.email == v.email
  {
  }

  /**
   * The projection keeps every scalar field, keeps the assignee exactly when there is one, and
   * always carries the creator.
   */
  lemma FromTaskSpec(t: Task)
    ensures var r := FromTask(t);
      && r.id == t.id && r.title == t.title && r.description == t.description
      && r.status == t.status && r.priority == t.priority
      && r.createdAt == t.createdAt && r.updatedAt == t.updatedAt
      && (r.assignee.None? <==> t.assignee.None?)
      && (t.assignee.Some? ==>
            r.assignee.value.id == t.assignee.value.id
            && r.assignee.value.username == t.assignee.value.username
            && r.assignee.value.email == t.assignee.value.email)
      && r.creator.id == t.creator.id && r.creator.username == t.creator.username
      && r.creator.email == t.creator.email
  {
  }

  /** Tasks that differ only in their users' passwords or roles give the same response. */
  lemma FromTaskHidesCredentials(t: Task, password: string, role: Roles.Role)
    ensures FromTask(t.(creator := t.creator.(password := password, role := role))) == FromTask(t)
    ensures t.assignee.Some? ==>
      FromTask(t.(assignee := Some(t.assignee.value.(password := password, role := role)))) == FromTask(t)
  {
  }
}
