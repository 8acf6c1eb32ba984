/** The task use cases: creation, editing, deletion, queries, assignment and status changes. */
module TaskServices {
  import opened Wrappers
  import opened Seqs
  import opened Users
  import opened Tasks
  import opened TaskRequests
  import opened TaskResponses
  import opened TaskStore

  /** The runtime exceptions the service throws, one constructor per message. */
  datatype TaskError =
    | TaskNotFound
    | AssigneeNotFound
    | NotCreatorOrAssignee
    | NotCreator
    | InvalidStatusTransition(from: TaskStatus, to: TaskStatus)

  /** `isValidStatusTransition`. */
  predicate IsValidStatusTransition(current: TaskStatus, next: TaskStatus)
  {
    match current
    case TODO => next == IN_PROGRESS || next == DONE
    case IN_PROGRESS => next == DONE
    case DONE => false
  }

  /** Position along the workflow TODO, IN_PROGRESS, DONE. */
  function Rank(s: TaskStatus): nat
  {
    match s
    case TODO => 0
    case IN_PROGRESS => 1
    case DONE => 2
  }

  /** A transition is legal exactly when it moves strictly forward along the workflow. */
  lemma TransitionsMoveForward(current: TaskStatus, next: TaskStatus)
    ensures IsValidStatusTransition(current, next) <==> Rank(current) < Rank(next)
  {
  }

  /** The three legal moves; DONE is terminal, and no status moves to itself or back to TODO. */
  lemma TransitionTable(current: TaskStatus, next: TaskStatus)
    ensures IsValidStatusTransition(current, next) <==>
      (current == TODO && next == IN_PROGRESS) || (current == TODO && next == DONE)
      || (current == IN_PROGRESS && next == DONE)
    ensures !IsValidStatusTransition(DONE, next)
    ensures !IsValidStatusTransition(current, current)
    ensures !IsValidStatusTransition(current, TODO)
  {
  }

  /** A sequence of statuses each reachable from the previous by a legal transition. */
  ghost predicate LegalChain(ss: seq<TaskStatus>)
  {
    forall k :: 0 <= k < |ss| - 1 ==> IsValidStatusTransition(ss[k], ss[k + 1])
  }

  /**
   * Through `updateTaskStatus` alone a task changes status at most twice: a legal chain has at
   * most three states, fewer the later it starts (`updateTask` sets any status, see below).
   */
  lemma {:induction false} LegalChainsAreShort(ss: seq<TaskStatus>)
    requires LegalChain(ss)
    ensures ss != [] ==> |ss| + Rank(ss[0]) <= 3
    ensures |ss| <= 3
  {
    if |ss| > 1 {
      assert LegalChain(ss[1..]) by {
        forall k | 0 <= k < |ss[1..]| - 1
          ensures IsValidStatusTransition(ss[1..][k], ss[1..][k + 1])
        {
          assert ss[1..][k] == ss[k + 1] && ss[1..][k + 1] == ss[k + 2];
        }
      }
      LegalChainsAreShort(ss[1..]);
      TransitionsMoveForward(ss[0], ss[1]);
    }
  }

  /** The `findById(...).orElseThrow(...)` lookup of an optional assignee id. */
  function ResolveAssignee(users: seq<User>, assigneeId: Option<int>): Result<Option<User>, TaskError>
  {
    if assigneeId.None? then Ok(None)
    else match FindById(users, assigneeId.value)
      case None => Err(AssigneeNotFound)
      case Some(u) => Ok(Some(u))
  }

  /**
   * No id resolves to no assignee; a given id fails exactly when no user has it, and otherwise
   * resolves to a stored user with that id.
   */
  lemma ResolveAssigneeSpec(users: seq<User>, assigneeId: Option<int>)
    ensures assigneeId.None? ==> ResolveAssignee(users, assigneeId) == Ok(None)
    ensures ResolveAssignee(users, assigneeId).Err? <==>
      assigneeId.Some? && forall k :: 0 <= k < |users| ==> users[k].id != assigneeId.value
    ensures ResolveAssignee(users, assigneeId).Err? ==> ResolveAssignee(users, assigneeId).error == AssigneeNotFound
    ensures ResolveAssignee(users, assigneeId).Ok? && assigneeId.Some? ==>
      var a := ResolveAssignee(users, assigneeId).value;
      a.Some? && a.value in users && a.value.id == assigneeId.value
  {
    if assigneeId.Some? {
      FindSpec(users, (u: User) => u.id == assigneeId.value);
    }
  }

  /** The row `createTask` builds before saving it under `id`. */
  function NewTask(id: int, request: TaskRequest, assignee: Option<User>, creator: User, now: int): Task
    requires IsValidRequest(request)
  {
    Task(id, request.title.value, request.description, request.status.value, request.priority.value,
      assignee, creator, now, now)
  }

  /** `updateTask` on a found task: ownership check, assignee lookup, then the request's fields. */
  function EditTask(t: Task, request: TaskRequest, users: seq<User>, userId: int): Result<Task, TaskError>
    requires IsValidRequest(request)
  {
    if !MayModify(t, userId) then Err(NotCreatorOrAssignee)
    else match ResolveAssignee(users, request.assigneeId)
      case Err(e) => Err(e)
      case Ok(assignee) =>
        Ok(t.(title := request.title.value, description := request.description, status := request.status.value,
              priority := request.priority.value, assignee := assignee))
  }

  /** `assignTask` on a found task: creator check, then the assignee lookup. */
  function AssignTo(t: Task, users: seq<User>, assigneeId: int, userId: int): Result<Task, TaskError>
  {
    if !IsCreator(t, userId) then Err(NotCreator)
    else match FindById(users, assigneeId)
      case None => Err(AssigneeNotFound)
      case Some(u) => Ok(t.(assignee := Some(u)))
  }

  /** `updateTaskStatus` on a found task: ownership check, then the transition check. */
  function ChangeStatus(t: Task, newStatus: TaskStatus, userId: int): Result<Task, TaskError>
  {
    if !MayModify(t, userId) then Err(NotCreatorOrAssignee)
    else if !IsValidStatusTransition(t.status, newStatus) then Err(InvalidStatusTransition(t.status, newStatus))
    else Ok(t.(status := newStatus))
  }

  /** `isTaskAssignedToUser` against the stored rows. */
  function TaskAssignedToUser(rows: map<int, Task>, taskId: int, userId: int): Result<bool, TaskError>
  {
    if taskId !in rows then Err(TaskNotFound) else Ok(IsAssignee(rows[taskId], userId))
  }

  /**
   * A created task has the caller as creator, the request's fields, the resolved assignee and
   * equal creation and update instants.
   */
  lemma NewTaskSpec(users: seq<User>, id: int, request: TaskRequest, creator: User, now: int)
    requires IsValidRequest(request)
    requires ResolveAssignee(users, request.assigneeId).Ok?
    ensures var t := NewTask(id, request, ResolveAssignee(users, request.assigneeId).value, creator, now);
      && t.creator == creator && IsCreator(t, creator.id) && MayModify(t, creator.id)
      && t.title == request.title.value && Text.Trim(t.title) != []
      && t.status == request.status.value && t.priority == request.priority.value
      && (t.assignee.Some? <==> request.assigneeId.Some?)
      && (t.assignee.Some? ==> t.assignee.value in users && IsAssignee(t, request.assigneeId.value))
      && t.createdAt == t.updatedAt == now
  {
    ResolveAssigneeSpec(users, request.assigneeId);
  }

  /**
   * Editing: strangers are refused first, then an unknown assignee; a successful edit keeps
   * id, creator and timestamps and takes everything else from the request.
   */
  lemma EditTaskSpec(t: Task, request: TaskRequest, users: seq<User>, userId: int)
    requires IsValidRequest(request)
    ensures EditTask(t, request, users, userId) == Err(NotCreatorOrAssignee) <==> !MayModify(t, userId)
    ensures EditTask(t, request, users, userId) == Err(AssigneeNotFound) <==>
      MayModify(t, userId) && request.assigneeId.Some?
      && forall k :: 0 <= k < |users| ==> users[k].id != request.assigneeId.value
    ensures EditTask(t, request, users, userId).Ok? ==>
      var u := EditTask(t, request, users, userId).value;
      && u.id == t.id && u.creator == t.creator
      && u.createdAt == t.createdAt && u.updatedAt == t.updatedAt
      && u.title == request.title.value && u.description == request.description
      && u.status == request.status.value && u.priority == request.priority.value
      && (u.assignee.Some? <==> request.assigneeId.Some?)
      && (u.assignee.Some? ==> u.assignee.value in users && IsAssignee(u, request.assigneeId.value))
  {
    ResolveAssigneeSpec(users, request.assigneeId);
  }

  /**
   * An edit sets the status straight from the request, with no transition check: an owner can
   * move a DONE task back to TODO through it, which `updateTaskStatus` refuses.
   */
  lemma EditBypassesTransitions(t: Task, request: TaskRequest, users: seq<User>, userId: int)
    requires IsValidRequest(request) && request.assigneeId.None?
    requires MayModify(t, userId) && t.status == DONE && request.status == Some(TODO)
    ensures EditTask(t, request, users, userId).Ok? && EditTask(t, request, users, userId).value.status == TODO
    ensures ChangeStatus(t, TODO, userId) == Err(InvalidStatusTransition(DONE, TODO))
  {
  }

  /**
   * Assigning: only the creator may, even the current assignee is refused; on success the
   * assignee becomes the stored user with that id and nothing else changes.
   */
  lemma AssignToSpec(t: Task, users: seq<User>, assigneeId: int, userId: int)
    ensures AssignTo(t, users, assigneeId, userId) == Err(NotCreator) <==> !IsCreator(t, userId)
    ensures IsAssignee(t, userId) && !IsCreator(t, userId) ==> AssignTo(t, users, assigneeId, userId).Err?
    ensures AssignTo(t, users, assigneeId, userId) == Err(AssigneeNotFound) <==>
      IsCreator(t, userId) && forall k :: 0 <= k < |users| ==> users[k].id != assigneeId
    ensures AssignTo(t, users, assigneeId, userId).Ok? ==>
      var u := AssignTo(t, users, assigneeId, userId).value;
      && u.assignee.Some? && u.assignee.value in users && IsAssignee(u, assigneeId)
      && u.(assignee := t.assignee) == t
  {
    FindSpec(users, (u: User) => u.id == assigneeId);
  }

  /**
   * Changing status: strangers are refused before the transition is looked at; a success moves
   * the task strictly forward and changes nothing but its status.
   */
  lemma ChangeStatusSpec(t: Task, newStatus: TaskStatus, userId: int)
    ensures !MayModify(t, userId) ==> ChangeStatus(t, newStatus, userId) == Err(NotCreatorOrAssignee)
    ensures ChangeStatus(t, newStatus, userId).Ok? <==>
      MayModify(t, userId) && Rank(t.status) < Rank(newStatus)
    ensures t.status == DONE ==> ChangeStatus(t, newStatus, userId).Err?
    ensures ChangeStatus(t, newStatus, userId).Ok? ==>
      var u := ChangeStatus(t, newStatus, userId).value;
      u.status == newStatus && u.(status := t.status) == t
  {
    TransitionsMoveForward(t.status, newStatus);
  }

  /** A task counts as assigned to the user only through its assignee: being its creator is not enough. */
  lemma TaskAssignedToUserSpec(rows: map<int, Task>, taskId: int, userId: int)
    ensures TaskAssignedToUser(rows, taskId, userId) == Err(TaskNotFound) <==> taskId !in rows
    ensures TaskAssignedToUser(rows, taskId, userId) == Ok(true) <==>
      taskId in rows && rows[taskId].assignee.Some? && rows[taskId].assignee.value.id == userId
    ensures taskId in rows && rows[taskId].assignee.None? ==> TaskAssignedToUser(rows, taskId, userId) == Ok(false)
  {
  }

  /**
   * `r` holds the response of every stored task satisfying `keep`, and only those, each once:
   * each entry is the response of the stored row with its id, and ids strictly increase.
   */
  ghost predicate Lists(r: seq<TaskResponse>, rows: map<int, Task>, keep: Task -> bool)
  {
    && (forall id :: id in rows && keep(rows[id]) ==> FromTask(rows[id]) in r)
    && (forall k :: 0 <= k < |r| ==> r[k].id in rows && keep(rows[r[k].id]) && r[k] == FromTask(rows[r[k].id]))
    && (forall i, j :: 0 <= i < j < |r| ==> r[i].id < r[j].id)
  }

  /** Projecting a query's result lists exactly the stored rows the query selects. */
  lemma ListsFromQuery(found: seq<Task>, rows: map<int, Task>, keep: Task -> bool)
    requires forall id :: id in rows ==> rows[id].id == id
    requires forall t :: t in found <==> t.id in rows && rows[t.id] == t && keep(t)
    requires IdsIncrease(found)
    ensures Lists(FromTasks(found), rows, keep)
  {
    var r := FromTasks(found);
    forall id | id in rows && keep(rows[id])
      ensures FromTask(rows[id]) in r
    {
      var t := rows[id];
      assert t in found;
      var k :| 0 <= k < |found| && found[k] == t;
      assert r[k] == FromTask(t);
    }
    forall k | 0 <= k < |r|
      ensures r[k].id in rows && keep(rows[r[k].id]) && r[k] == FromTask(rows[r[k].id])
    {
      assert found[k] in found;
    }
  }

  /** The service, sharing the task and user tables with the rest of the application. */
  class TaskService {
    const taskRepo: TaskRepository
    const userRepo: UserRepository

    ghost predicate Valid()
      reads this, taskRepo, userRepo
    {
      taskRepo.Valid() && userRepo.Valid()
    }

    constructor (taskRepo: TaskRepository, userRepo: UserRepository)
      ensures this.taskRepo == taskRepo && this.userRepo == userRepo
    {
      this.taskRepo := taskRepo;
      this.userRepo := userRepo;
    }

    /** `createTask`: the request was validated by the controller; `now` is the audit instant. */
    method CreateTask(request: TaskRequest, creator: User, now: int) returns (r: Result<TaskResponse, TaskError>)
      requires Valid() && IsValidRequest(request)
      modifies taskRepo
      ensures Valid()
      ensures match ResolveAssignee(userRepo.rows, request.assigneeId)
        case Err(e) =>
          r == Err(e) && taskRepo.rows == old(taskRepo.rows) && taskRepo.nextId == old(taskRepo.nextId)
        case Ok(assignee) =>
          var t := NewTask(old(taskRepo.nextId), request, assignee, creator, now);
          && r == Ok(FromTask(t))
          && taskRepo.rows == old(taskRepo.rows)[t.id := t] && taskRepo.nextId == old(taskRepo.nextId) + 1
    {
      var resolved := ResolveAssignee(userRepo.rows, request.assigneeId);
      if resolved.Err? {
        return Err(resolved.error);
      }
      var saved := taskRepo.Insert(NewTask(0, request, resolved.value, creator, now));
      r := Ok(FromTask(saved));
    }

    /** `updateTask`. */
    method UpdateTask(taskId: int, request: TaskRequest, currentUser: User) returns (r: Result<TaskResponse, TaskError>)
      requires Valid() && IsValidRequest(request)
      modifies taskRepo
      ensures Valid() && taskRepo.nextId == old(taskRepo.nextId)
      ensures taskId !in old(taskRepo.rows) ==> r == Err(TaskNotFound) && taskRepo.rows == old(taskRepo.rows)
      ensures taskId in old(taskRepo.rows) ==>
        match EditTask(old(taskRepo.rows)[taskId], request, userRepo.rows, currentUser.id)
        case Err(e) => r == Err(e) && taskRepo.rows == old(taskRepo.rows)
        case Ok(u) => r == Ok(FromTask(u)) && taskRepo.rows == old(taskRepo.rows)[taskId := u]
    {
      var found := taskRepo.FindById(taskId);
      if found.None? {
        return Err(TaskNotFound);
      }
      var edited := EditTask(found.value, request, userRepo.rows, currentUser.id);
      if edited.Err? {
        return Err(edited.error);
      }
      taskRepo.Update(edited.value);
      r := Ok(FromTask(edited.value));
    }

    /** `deleteTask`: the current user plays no part. */
    method DeleteTask(taskId: int, currentUser: User) returns (r: Result<(), TaskError>)
      requires Valid()
      modifies taskRepo
      ensures Valid() && taskRepo.nextId == old(taskRepo.nextId)
      ensures taskId !in old(taskRepo.rows) ==> r == Err(TaskNotFound) && taskRepo.rows == old(taskRepo.rows)
      ensures taskId in old(taskRepo.rows) ==> r == Ok(()) && taskRepo.rows == old(taskRepo.rows) - {taskId}
    {
      var found := taskRepo.FindById(taskId);
      if found.None? {
        return Err(TaskNotFound);
      }
      taskRepo.Delete(taskId);
      r := Ok(());
    }

    /** `getTask`. */
    method GetTask(taskId: int) returns (r: Result<TaskResponse, TaskError>)
      requires Valid()
      ensures r.Err? <==> taskId !in taskRepo.rows
      ensures r.Err? ==> r.error == TaskNotFound
      ensures r.Ok? ==> r.value == FromTask(taskRepo.rows[taskId]) && r.value.id == taskId
    {
      var found := taskRepo.FindById(taskId);
      if found.None? {
        return Err(TaskNotFound);
      }
      r := Ok(FromTask(found.value));
    }

    /**
     * `getTasks`: an unknown assignee id is an error; otherwise every stored task matching the
     * non-null filters, and only those (one page of them in the source).
     */
    method GetTasks(status: Option<TaskStatus>, assigneeId: Option<int>) returns (r: Result<seq<TaskResponse>, TaskError>)
      requires Valid()
      ensures ResolveAssignee(userRepo.rows, assigneeId).Err? ==> r == Err(AssigneeNotFound)
      ensures ResolveAssignee(userRepo.rows, assigneeId).Ok? ==>
        var assignee := ResolveAssignee(userRepo.rows, assigneeId).value;
        r.Ok? && Lists(r.value, taskRepo.rows, (t: Task) => MatchesStatusAndAssignee(t, status, assignee))
    {
      ResolveAssigneeSpec(userRepo.rows, assigneeId);
      var resolved := ResolveAssignee(userRepo.rows, assigneeId);
      if resolved.Err? {
        return Err(resolved.error);
      }
      var all := taskRepo.FindAll();
      var found := FindByStatusAndAssignee(all, status, resolved.value);
      FindByStatusAndAssigneeSpec(all, status, resolved.value);
      ListsFromQuery(found, taskRepo.rows, (t: Task) => MatchesStatusAndAssignee(t, status, resolved.value));
      r := Ok(FromTasks(found));
    }

    /** `getTasksByAssignee`: the tasks whose assignee is this user. */
    method GetTasksByAssignee(assignee: User) returns (r: seq<TaskResponse>)
      requires Valid()
      ensures Lists(r, taskRepo.rows, (t: Task) => IsAssignee(t, assignee.id))
    {
      var all := taskRepo.FindAll();
      var found := FindByAssignee(all, assignee);
      FindByAssigneeSpec(all, assignee);
      ListsFromQuery(found, taskRepo.rows, (t: Task) => IsAssignee(t, assignee.id));
      r := FromTasks(found);
    }

    /** `getTasksByCreator`: the tasks this user created. */
    method GetTasksByCreator(creator: User) returns (r: seq<TaskResponse>)
      requires Valid()
      ensures Lists(r, taskRepo.rows, (t: Task) => IsCreator(t, creator.id))
    {
      var all := taskRepo.FindAll();
      var found := FindByCreator(all, creator);
      FindByCreatorSpec(all, creator);
      ListsFromQuery(found, taskRepo.rows, (t: Task) => IsCreator(t, creator.id));
      r := FromTasks(found);
    }

    /** `getTasksByStatus`. */
    method GetTasksByStatus(status: TaskStatus) returns (r: seq<TaskResponse>)
      requires Valid()
      ensures Lists(r, taskRepo.rows, (t: Task) => t.status == status)
    {
      var all := taskRepo.FindAll();
      var found := FindByStatus(all, status);
      FindByStatusSpec(all, status);
      ListsFromQuery(found, taskRepo.rows, (t: Task) => t.status == status);
      r := FromTasks(found);
    }

    /** `assignTask`. */
    method AssignTask(taskId: int, assigneeId: int, currentUser: User) returns (r: Result<TaskResponse, TaskError>)
      requires Valid()
      modifies taskRepo
      ensures Valid() && taskRepo.nextId == old(taskRepo.nextId)
      ensures taskId !in old(taskRepo.rows) ==> r == Err(TaskNotFound) && taskRepo.rows == old(taskRepo.rows)
      ensures taskId in old(taskRepo.rows) ==>
        match AssignTo(old(taskRepo.rows)[taskId], userRepo.rows, assigneeId, currentUser.id)
        case Err(e) => r == Err(e) && taskRepo.rows == old(taskRepo.rows)
        case Ok(u) => r == Ok(FromTask(u)) && taskRepo.rows == old(taskRepo.rows)[taskId := u]
    {
      var found := taskRepo.FindById(taskId);
      if found.None? {
        return Err(TaskNotFound);
      }
      var outcome := AssignTo(found.value, userRepo.rows, assigneeId, currentUser.id);
      if outcome.Err? {
        return Err(outcome.error);
      }
      taskRepo.Update(outcome.value);
      r := Ok(FromTask(outcome.value));
    }

    /** `updateTaskStatus`. */
    method UpdateTaskStatus(taskId: int, newStatus: TaskStatus, currentUser: User) returns (r: Result<TaskResponse, TaskError>)
      requires Valid()
      modifies taskRepo
      ensures Valid() && taskRepo.nextId == old(taskRepo.nextId)
      ensures taskId !in old(taskRepo.rows) ==> r == Err(TaskNotFound) && taskRepo.rows == old(taskRepo.rows)
      ensures taskId in old(taskRepo.rows) ==>
        match ChangeStatus(old(taskRepo.rows)[taskId], newStatus, currentUser.id)
        case Err(e) => r == Err(e) && taskRepo.rows == old(taskRepo.rows)
        case Ok(u) => r == Ok(FromTask(u)) && taskRepo.rows == old(taskRepo.rows)[taskId := u]
    {
      var found := taskRepo.FindById(taskId);
      if found.None? {
        return Err(TaskNotFound);
      }
      var changed := ChangeStatus(found.value, newStatus, currentUser.id);
      if changed.Err? {
        return Err(changed.error);
      }
      taskRepo.Update(changed.value);
      r := Ok(FromTask(changed.value));
    }

    /** `isTaskAssignedToUser`, the helper the controller's guards call. */
    method IsTaskAssignedToUser(taskId: int, userId: int) returns (r: Result<bool, TaskError>)
      requires Valid()
      ensures r.Err? <==> taskId !in taskRepo.rows
      ensures r.Err? ==> r.error == TaskNotFound
      ensures r == Ok(true) <==> taskId in taskRepo.rows && IsAssignee(taskRepo.rows[taskId], userId)
      ensures r == TaskAssignedToUser(taskRepo.rows, taskId, userId)
    {
      var found := taskRepo.FindById(taskId);
      if found.None? {
        return Err(TaskNotFound);
      }
      r := Ok(found.value.assignee.Some? && found.value.assignee.value.id == userId);
    }
  }
}
