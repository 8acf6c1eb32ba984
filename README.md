# Task management backend: a verified model

This project models the core of the Spring Boot backend of a small task-management
application in Dafny.

- Users register, log in and refresh their access tokens. Each issued access token is
  stored, and issuing a new one on login or refresh revokes the user's earlier ones.
- Authenticated users create, edit, assign, move along a workflow, list and delete tasks.
- Every request passes a JWT filter. The filter installs an authentication only for a bearer
  token whose stored record is still live.
- Each task endpoint carries a method-security guard. The guard is written over the
  permissions of the caller's role (`USER`, `ADMIN`).
- At start-up, a seed loader registers seed users and stores seed tasks.

## Modules

- `Wrappers`, `Seqs` and `Text` are generic support. They provide:
  - `Option` and `Result`;
  - sequence filtering and first-match search;
  - `startsWith`, `contains` and Java's `trim()`.
- **`Permissions` and `Roles`** model the permission enum with its tag strings, the two roles'
  permission sets, and `getAuthorities()`, which lists the permission tags followed by
  `ROLE_<name>`.
- **`Users`, `Tokens` and `Tasks`** hold the persisted records and the finders used on them.
  - The user and token tables are classes with a `seq` of rows. The table assigns ids 1, 2, 3, … on save.
  - Token revocation is modelled as the function `RevokeAll`, with its properties proved as lemmas.
- **`Jwt`** represents the token service (signing, parsing, validity) as a bundle of
  uninterpreted functions. `extractUsername` either yields a subject, yields none, or
  rejects the token (the library throws).
- **`Authentication`** contains the `AuthenticationService` class: register, login, refresh,
  `saveUserToken` and the in-place `revokeAllUserTokens` loop. Login and refresh are proved to
  leave exactly one valid token for the user (single active session).
- **`TaskStore`** gives the repository's query methods as filters over the stored rows.
  - A null parameter of `findByStatusAndAssignee` means "any".
  - The table itself is a class holding a `map` from id to task.
- **`TaskRequests` and `TaskResponses`** model the request's bean-validation constraints as a
  predicate, and the `fromTask` projection.
- **`TaskServices`** models the status workflow, the ownership rules and the `TaskService`
  class. Each state-changing operation is specified by a pure function of the found task
  (`EditTask`, `AssignTo`, `ChangeStatus`), whose properties are proved as lemmas.
- **`TaskController`** gives each endpoint's `@PreAuthorize` expression as a decision over
  the caller's authorities. It also proves what each role can actually do once guard and
  service checks are combined.
- **`RequestFilter`** states the filter's decision as a function. The filter method applies
  it to a `SecurityContext` object.
- **`Seeding`** contains the seed loader's two loops as methods. They are proved against
  recursive specifications: the table after seeding users, and the tasks seeded in order.

## Behaviour of the code worth knowing

These follow from the code; the model keeps them and proves them.

- **`updateTask` does not check the workflow.** It sets whatever status the request carries.
  An owner can therefore move a `DONE` task back to `TODO` through it, although
  `updateTaskStatus` refuses that move (`TaskServices.EditBypassesTransitions`).
- **`deleteTask` takes the current user but never looks at it.** Only the guard restricts
  deletion.
- **`ADMIN` holds neither `task:create` nor `task:read:own`.** An admin can therefore neither
  create tasks nor use `my-tasks` or `created-by-me`.
- **The guard and the service disagree on updates.**
  - An `ADMIN` passes the update guards for any task, but the service still refuses one it
    neither created nor is assigned.
  - A `USER` who created a task but is not its assignee is stopped by the guard, although
    the service would accept them.
- **The refresh endpoint does not look at the stored record of the refresh token.** Only the
  token service's validity check applies there. In the request filter, by contrast, the stored
  record must be neither expired nor revoked.
- **`register` checks only the email, so two accounts can share a username.** `login` looks
  the user up by username with a single-result query, which then fails
  (`Users.FindByUsernameSpec`, `Authentication.AuthenticationService.Login`).
- **Seed users with an unknown role name are skipped, and so are seed tasks with an unknown
  status or priority name.** In each case the exception is caught and logged.

## Model

The source paths below are relative to the repository root.

| member | source | states |
|---|---|---|
| Permissions.TagRoundTrip | backend/src/main/java/com/nderitu/tma/user/Permission.java:10-22 | every permission's tag string parses back to it, and only tag strings parse |
| Permissions.Tag | backend/src/main/java/com/nderitu/tma/user/Permission.java:10-27 | each constant carries its tag string; its properties are `TagRoundTrip` and `TagInjective` |
| Permissions.FromTag | backend/src/main/java/com/nderitu/tma/user/Permission.java:10-22 | the lookup of a constant by its tag string, the inverse `TagRoundTrip` proves |
| Permissions.TagInjective | backend/src/main/java/com/nderitu/tma/user/Permission.java:10-22 | distinct permissions have distinct tag strings |
| Permissions.CreateTagsDiffer | backend/src/main/java/com/nderitu/tma/user/Permission.java:12-19 | `task:create` and `task:create:all` are different authorities |
| Permissions.ExactlyNine | backend/src/main/java/com/nderitu/tma/user/Permission.java:10-22 | the enum has exactly nine distinct constants |
| Roles.ValueOfName | backend/src/main/java/com/nderitu/tma/user/Role.java:24-41 | `Role.valueOf` inverts the role name and accepts nothing else |
| Roles.RolePermissions | backend/src/main/java/com/nderitu/tma/user/Role.java:24-41 | the permission set of each role; `RolesSplitByScope` and `PermissionListEnumerates` state its contents |
| Roles.Authorities | backend/src/main/java/com/nderitu/tma/user/Role.java:48-55 | `getAuthorities`; `AuthoritiesShape`, `HasAuthorityIff` and `HasRoleAuthorityIff` state what it contains |
| Roles.PermissionListEnumerates | backend/src/main/java/com/nderitu/tma/user/Role.java:24-41 | each role's permission list holds exactly its permission set, without repeats |
| Roles.Tags | backend/src/main/java/com/nderitu/tma/user/Role.java:49-52 | one authority per permission |
| Roles.TagsAt | backend/src/main/java/com/nderitu/tma/user/Role.java:49-52 | the k-th authority is the tag of the k-th permission, so the mapping keeps order and contents |
| Roles.TagsMembership | backend/src/main/java/com/nderitu/tma/user/Role.java:49-52 | a permission's tag is among the mapped authorities iff the permission is in the list |
| Roles.TagsAreNotRoleAuthorities | backend/src/main/java/com/nderitu/tma/user/Role.java:49-53 | no permission tag equals a `ROLE_` authority |
| Roles.AuthoritiesShape | backend/src/main/java/com/nderitu/tma/user/Role.java:48-55 | `getAuthorities` has one entry per permission plus a last entry `ROLE_<name>` |
| Roles.HasAuthorityIff | backend/src/main/java/com/nderitu/tma/user/Role.java:24-55 | a role's authorities contain a permission's tag iff the role has that permission |
| Roles.HasRoleAuthorityIff | backend/src/main/java/com/nderitu/tma/user/Role.java:53 | a role's authorities contain `ROLE_<q>` iff q is that role |
| Roles.RolesSplitByScope | backend/src/main/java/com/nderitu/tma/user/Role.java:24-41 | USER holds no `all`-scoped or assign permission; ADMIN holds no `own` permission and not `task:create`; both read users |
| Users.FindByEmailSpec | backend/src/main/java/com/nderitu/tma/auth/AuthenticationService.java:35 | `findByEmail` returns a stored user with that email, and returns nothing iff no row has it |
| Users.FindByEmail | backend/src/main/java/com/nderitu/tma/auth/AuthenticationService.java:35 | the email finder; `FindByEmailSpec` and `FindByEmailUnique` state its result |
| Users.FindByUsername | backend/src/main/java/com/nderitu/tma/auth/AuthenticationService.java:71-72 | the single-result username finder (none, one, or several rows); `FindByUsernameSpec` states its result |
| Users.FindById | backend/src/main/java/com/nderitu/tma/task/TaskService.java:26-27 | the id finder; `FindByIdDense` states its result |
| Users.FindByUsernameSpec | backend/src/main/java/com/nderitu/tma/auth/AuthenticationService.java:71-72 | the single-result `findByUsername` finds nothing iff no row has the username, yields a row only when it is the one stored row with that username, and fails when two different rows share it |
| Users.FindByIdDense | backend/src/main/java/com/nderitu/tma/task/TaskService.java:26-27 | with ids assigned in order, `findById` finds the row at that position and nothing outside the id range |
| Users.FindByEmailUnique | backend/src/main/java/com/nderitu/tma/seed/SeedDataService.java:59-62 | with unique emails, the row holding an email is the one `findByEmail` returns |
| Users.UserRepository.Save | backend/src/main/java/com/nderitu/tma/auth/AuthenticationService.java:45 | saving a new user appends it under the next id and keeps ids dense |
| Tokens.BearerTokenRoundTrip | backend/src/main/java/com/nderitu/tma/config/JwtAuthenticationFilter.java:42-47 | cutting seven characters off a `Bearer ` header yields exactly the token, and prefixing the token gives the header back |
| Tokens.BearerToken | backend/src/main/java/com/nderitu/tma/config/JwtAuthenticationFilter.java:47 | `substring(7)` of a bearer header; `BearerTokenRoundTrip` is its inverse |
| Tokens.IsValid | backend/src/main/java/com/nderitu/tma/config/JwtAuthenticationFilter.java:55 | a stored token is usable iff neither expired nor revoked |
| Tokens.NewToken | backend/src/main/java/com/nderitu/tma/auth/AuthenticationService.java:93-99 | the live BEARER record `saveUserToken` builds |
| Tokens.FindAllValidTokenByUser | backend/src/main/java/com/nderitu/tma/auth/AuthenticationService.java:104 | the user's valid tokens; `SingleActiveSession` and `RevokeAllLeavesNoneValid` state it after revocation |
| Tokens.FindByToken | backend/src/main/java/com/nderitu/tma/config/JwtAuthenticationFilter.java:54 | the token finder; `RequestFilter.StoredTokenValidSpec` states its result |
| Tokens.Revoke | backend/src/main/java/com/nderitu/tma/auth/AuthenticationService.java:107-110 | what revocation does to one row |
| Tokens.RevokeAll | backend/src/main/java/com/nderitu/tma/auth/AuthenticationService.java:103-112 | the token table after `revokeAllUserTokens`; the `RevokeAll…` lemmas and `SingleActiveSession` state its properties |
| Tokens.RevokeAllAt | backend/src/main/java/com/nderitu/tma/auth/AuthenticationService.java:103-112 | revocation keeps the table's length and treats each row on its own |
| Tokens.RevokeAllLeavesNoneValid | backend/src/main/java/com/nderitu/tma/auth/AuthenticationService.java:103-112 | after revocation the user has no valid token |
| Tokens.RevokeAllFlags | backend/src/main/java/com/nderitu/tma/auth/AuthenticationService.java:107-110 | a valid token of the user gets both flags set; every other row is unchanged |
| Tokens.RevokeAllIdle | backend/src/main/java/com/nderitu/tma/auth/AuthenticationService.java:105-106 | with no valid token for the user, revocation changes nothing |
| Tokens.RevokeAllSparesOthers | backend/src/main/java/com/nderitu/tma/auth/AuthenticationService.java:103-112 | other users' valid tokens are exactly as before |
| Tokens.SingleActiveSession | backend/src/main/java/com/nderitu/tma/auth/AuthenticationService.java:75-76 | revoking the user's tokens and then saving one new token leaves that token as the user's only valid one |
| Tokens.RevokeAllKeepsFlagsEqual | backend/src/main/java/com/nderitu/tma/auth/AuthenticationService.java:107-110 | revocation keeps `expired` and `revoked` equal on every row |
| Tokens.TokenRepository.Save | backend/src/main/java/com/nderitu/tma/auth/AuthenticationService.java:100 | saving a token appends it under the next id |
| Authentication.ClassifyRefreshSpec | backend/src/main/java/com/nderitu/tma/auth/AuthenticationService.java:118-129 | a refresh without a `Bearer ` header is ignored; it rotates only when the subject is a stored user's email and the token service accepts the token for that user, and the header is the prefix plus the refresh token |
| Authentication.ClassifyRefresh | backend/src/main/java/com/nderitu/tma/auth/AuthenticationService.java:118-129 | the refresh decision before any token is touched; its lemmas are `ClassifyRefreshSpec` and `ClassifyRefreshOutcomes` |
| Authentication.ClassifyRefreshOutcomes | backend/src/main/java/com/nderitu/tma/auth/AuthenticationService.java:121-132 | for a bearer token: a parse failure is an invalid-token error, no subject is ignored, an unknown subject email is a user-not-found error, and a known user rotates iff the token service accepts the token; with unique emails, every stored user whose email is the subject of an accepted token gets a rotation with the presented token |
| Authentication.StoredIdInRange | backend/src/main/java/com/nderitu/tma/auth/AuthenticationService.java:45 | a stored user's id lies within the table's id range |
| Authentication.AuthenticationService.constructor | backend/src/main/java/com/nderitu/tma/auth/AuthenticationService.java:25-30 | the service shares the given user and token tables |
| Authentication.AuthenticationService.SaveUserToken | backend/src/main/java/com/nderitu/tma/auth/AuthenticationService.java:92-101 | appends one live BEARER record of the token for the user |
| Authentication.AuthenticationService.RevokeAllUserTokens | backend/src/main/java/com/nderitu/tma/auth/AuthenticationService.java:103-112 | the loop leaves the token table equal to `RevokeAll` of the old table |
| Authentication.AuthenticationService.Register | backend/src/main/java/com/nderitu/tma/auth/AuthenticationService.java:32-62 | a known email is refused and nothing is stored; otherwise the user is appended with the encoded password and the next id, one live token is saved and is the user's only valid one, and the response carries both tokens and the password-free user |
| Authentication.AuthenticationService.Login | backend/src/main/java/com/nderitu/tma/auth/AuthenticationService.java:64-90 | failed authentication, an unknown username or a username shared by several rows leaves the token table unchanged with the matching error; otherwise the user's tokens are revoked, one new token is saved and it is the user's only valid one |
| Authentication.AuthenticationService.RefreshToken | backend/src/main/java/com/nderitu/tma/auth/AuthenticationService.java:114-148 | ignored and failed refreshes leave the token table unchanged; a rotation revokes the user's tokens, saves one new access token that becomes the only valid one, and hands back the presented refresh token |
| Tasks.ValueOfRoundTrip | backend/src/main/java/com/nderitu/tma/seed/SeedDataService.java:101-102 | `TaskStatus.valueOf` and `TaskPriority.valueOf` invert the constant names and accept nothing else |
| Tasks.IsAssignee | backend/src/main/java/com/nderitu/tma/task/TaskService.java:168 | the task's assignee is present and has that id |
| Tasks.IsCreator | backend/src/main/java/com/nderitu/tma/task/TaskService.java:121 | the task's creator has that id |
| Tasks.MayModify | backend/src/main/java/com/nderitu/tma/task/TaskService.java:48-49 | the ownership rule: creator or assignee |
| TaskRequests.ValidRequestIff | backend/src/main/java/com/nderitu/tma/task/TaskRequest.java:16-25 | a request is valid iff its title is present and has a character above the space, and status and priority are present |
| TaskRequests.NotBlank | backend/src/main/java/com/nderitu/tma/task/TaskRequest.java:16-17 | `@NotBlank`: present and something left after `trim()` |
| TaskRequests.IsValidRequest | backend/src/main/java/com/nderitu/tma/task/TaskRequest.java:16-25 | the bean-validation constraints of a request; `ValidRequestIff` states them character by character |
| TaskRequests.ValidityIgnoresOptionalFields | backend/src/main/java/com/nderitu/tma/task/TaskRequest.java:19-27 | description and assignee id play no part in validity |
| TaskRequests.BlankTitlesRefused | backend/src/main/java/com/nderitu/tma/task/TaskRequest.java:16-17 | a missing or all-space title makes the request invalid |
| TaskResponses.FromTasks | backend/src/main/java/com/nderitu/tma/task/TaskService.java:95-99 | mapping `fromTask` over a list keeps its length, and the k-th response is the projection of the k-th task |
| TaskResponses.SummaryForgetsCredentials | backend/src/main/java/com/nderitu/tma/task/TaskResponse.java:30-34 | two users have the same nested summary iff id, username and email agree |
| TaskResponses.FromTaskSpec | backend/src/main/java/com/nderitu/tma/task/TaskResponse.java:36-56 | the response copies every scalar field, has an assignee iff the task has one (summarized), and always summarizes the creator |
| TaskResponses.Summarize | backend/src/main/java/com/nderitu/tma/task/TaskResponse.java:30-34 | the nested user projection |
| TaskResponses.FromTask | backend/src/main/java/com/nderitu/tma/task/TaskResponse.java:36-56 | `fromTask`; `FromTaskSpec` and `FromTaskHidesCredentials` state what it keeps and hides |
| TaskResponses.FromTaskHidesCredentials | backend/src/main/java/com/nderitu/tma/task/TaskResponse.java:43-52 | changing a creator's or assignee's password or role does not change the response |
| TaskStore.FindByStatusAndAssigneeSpec | backend/src/main/java/com/nderitu/tma/task/TaskRepository.java:17-24 | a row is returned iff it is stored and every non-null parameter matches it, the assignee compared by id; rows scanned in id order come back in id order |
| TaskStore.MatchesStatusAndAssignee | backend/src/main/java/com/nderitu/tma/task/TaskRepository.java:17-19 | the query condition, a null parameter meaning any |
| TaskStore.FindByStatusAndAssignee | backend/src/main/java/com/nderitu/tma/task/TaskRepository.java:17-24 | the paged query without paging; `FindByStatusAndAssigneeSpec` states its result |
| TaskStore.FindByAssignee | backend/src/main/java/com/nderitu/tma/task/TaskRepository.java:26 | `findByAssignee`; `FindByAssigneeSpec` states its result |
| TaskStore.FindByCreator | backend/src/main/java/com/nderitu/tma/task/TaskRepository.java:28 | `findByCreator`; `FindByCreatorSpec` states its result |
| TaskStore.FindByStatus | backend/src/main/java/com/nderitu/tma/task/TaskRepository.java:30 | `findByStatus`; `FindByStatusSpec` states its result |
| TaskStore.FindByAssigneeAndStatus | backend/src/main/java/com/nderitu/tma/task/TaskRepository.java:32-33 | `findByAssigneeAndStatus`; `FindByAssigneeAndStatusSpec` states its result |
| TaskStore.TaskRepository.FindById | backend/src/main/java/com/nderitu/tma/task/TaskService.java:44-45 | the stored task with that id, if any |
| TaskStore.NullMeansAny | backend/src/main/java/com/nderitu/tma/task/TaskRepository.java:17-30 | with both parameters null every row comes back, unassigned ones included; with one null the query equals the single-criterion finder |
| TaskStore.BothGivenIsAssigneeAndStatus | backend/src/main/java/com/nderitu/tma/task/TaskRepository.java:17-33 | with both parameters given, the paged query returns what `findByAssigneeAndStatus` returns |
| TaskStore.FindByAssigneeSpec | backend/src/main/java/com/nderitu/tma/task/TaskRepository.java:26 | `findByAssignee` returns exactly the stored rows assigned to the user, in id order when scanned in id order |
| TaskStore.FindByCreatorSpec | backend/src/main/java/com/nderitu/tma/task/TaskRepository.java:28 | `findByCreator` returns exactly the stored rows the user created, in id order when scanned in id order |
| TaskStore.FindByStatusSpec | backend/src/main/java/com/nderitu/tma/task/TaskRepository.java:30 | `findByStatus` returns exactly the stored rows with that status, in id order when scanned in id order |
| TaskStore.FindByAssigneeAndStatusSpec | backend/src/main/java/com/nderitu/tma/task/TaskRepository.java:32-33 | `findByAssigneeAndStatus` returns exactly the stored rows meeting both criteria, in id order when scanned in id order |
| TaskStore.UnassignedNeverMatchAssignee | backend/src/main/java/com/nderitu/tma/task/TaskRepository.java:19-26 | an unassigned task never matches a query by assignee |
| TaskStore.TaskRepository.constructor | backend/src/main/java/com/nderitu/tma/task/TaskRepository.java:15 | an empty table whose first id is 1 |
| TaskStore.TaskRepository.Insert | backend/src/main/java/com/nderitu/tma/task/TaskService.java:39 | saving a new task stores it under the next id and changes no other row |
| TaskStore.TaskRepository.Update | backend/src/main/java/com/nderitu/tma/task/TaskService.java:65 | saving a stored task replaces its row only |
| TaskStore.TaskRepository.Delete | backend/src/main/java/com/nderitu/tma/task/TaskService.java:75 | deleting removes exactly that row |
| TaskStore.TaskRepository.FindAll | backend/src/main/java/com/nderitu/tma/task/TaskRepository.java:15 | the scan yields each stored task exactly once, in increasing id order |
| TaskServices.TransitionsMoveForward | backend/src/main/java/com/nderitu/tma/task/TaskService.java:153-162 | a transition is legal iff it moves strictly forward along TODO, IN_PROGRESS, DONE |
| TaskServices.IsValidStatusTransition | backend/src/main/java/com/nderitu/tma/task/TaskService.java:153-162 | `isValidStatusTransition`; `TransitionsMoveForward` and `TransitionTable` state which moves it allows |
| TaskServices.TransitionTable | backend/src/main/java/com/nderitu/tma/task/TaskService.java:153-162 | exactly TODO→IN_PROGRESS, TODO→DONE and IN_PROGRESS→DONE are legal; nothing leaves DONE, stays put or returns to TODO |
| TaskServices.LegalChainsAreShort | backend/src/main/java/com/nderitu/tma/task/TaskService.java:144-148 | a chain of legal transitions has at most three states, so through `updateTaskStatus` alone a task changes status at most twice (`updateTask` sets any status) |
| TaskServices.ResolveAssigneeSpec | backend/src/main/java/com/nderitu/tma/task/TaskService.java:24-28 | no id gives no assignee; a given id fails with "Assignee not found" iff no user has it, and otherwise resolves to the stored user with that id |
| TaskServices.ResolveAssignee | backend/src/main/java/com/nderitu/tma/task/TaskService.java:24-28 | the optional assignee lookup that throws "Assignee not found" |
| TaskServices.NewTask | backend/src/main/java/com/nderitu/tma/task/TaskService.java:30-37 | the task `createTask` builds; `NewTaskSpec` states its fields |
| TaskServices.EditTask | backend/src/main/java/com/nderitu/tma/task/TaskService.java:48-63 | `updateTask` on a found task; `EditTaskSpec` states its outcomes |
| TaskServices.AssignTo | backend/src/main/java/com/nderitu/tma/task/TaskService.java:121-128 | `assignTask` on a found task; `AssignToSpec` states its outcomes |
| TaskServices.ChangeStatus | backend/src/main/java/com/nderitu/tma/task/TaskService.java:138-148 | `updateTaskStatus` on a found task; `ChangeStatusSpec` states its outcomes |
| TaskServices.TaskAssignedToUser | backend/src/main/java/com/nderitu/tma/task/TaskService.java:164-169 | `isTaskAssignedToUser` over the stored rows; `TaskAssignedToUserSpec` states it |
| TaskServices.NewTaskSpec | backend/src/main/java/com/nderitu/tma/task/TaskService.java:23-41 | a created task has the caller as creator, the request's fields, an assignee iff an id was given (the stored user with that id) and equal creation and update instants |
| TaskServices.EditTaskSpec | backend/src/main/java/com/nderitu/tma/task/TaskService.java:47-63 | strangers are refused first, an unknown assignee next; a success keeps id, creator and `createdAt`, leaves `updatedAt` as it was (see "Left out"), takes every other field from the request and clears the assignee when no id is given |
| TaskServices.EditBypassesTransitions | backend/src/main/java/com/nderitu/tma/task/TaskService.java:59-61 | an owner's edit can move a DONE task to TODO, a move `updateTaskStatus` refuses |
| TaskServices.AssignToSpec | backend/src/main/java/com/nderitu/tma/task/TaskService.java:120-128 | only the creator may assign, even the assignee is refused; an unknown user fails; a success changes only the assignee, to the stored user with that id |
| TaskServices.ChangeStatusSpec | backend/src/main/java/com/nderitu/tma/task/TaskService.java:137-148 | strangers are refused before the transition is checked; a change succeeds iff the caller owns the task and the move is forward; success changes only the status |
| TaskServices.TaskAssignedToUserSpec | backend/src/main/java/com/nderitu/tma/task/TaskService.java:164-169 | a missing task fails; otherwise true iff the task has an assignee with that id, never through creatorship |
| TaskServices.ListsFromQuery | backend/src/main/java/com/nderitu/tma/task/TaskService.java:91-92 | projecting a query result in id order lists exactly the responses of the stored rows the query selects, each once, in id order |
| TaskServices.TaskService.constructor | backend/src/main/java/com/nderitu/tma/task/TaskService.java:20-21 | the service shares the given task and user tables |
| TaskServices.TaskService.CreateTask | backend/src/main/java/com/nderitu/tma/task/TaskService.java:23-41 | an unknown assignee fails and stores nothing; otherwise exactly the new task is stored under the next id and its response returned |
| TaskServices.TaskService.UpdateTask | backend/src/main/java/com/nderitu/tma/task/TaskService.java:43-67 | a missing task fails with "Task not found"; otherwise the table changes exactly as `EditTask` of the found task says, and not at all on its errors |
| TaskServices.TaskService.DeleteTask | backend/src/main/java/com/nderitu/tma/task/TaskService.java:69-76 | a missing task fails; otherwise exactly that task is removed, whoever the caller is |
| TaskServices.TaskService.GetTask | backend/src/main/java/com/nderitu/tma/task/TaskService.java:78-82 | fails iff the task is missing; otherwise the response of the stored task |
| TaskServices.TaskService.GetTasks | backend/src/main/java/com/nderitu/tma/task/TaskService.java:84-93 | an unknown assignee id fails; otherwise the responses of exactly the stored tasks matching the non-null filters, each once, in id order |
| TaskServices.TaskService.GetTasksByAssignee | backend/src/main/java/com/nderitu/tma/task/TaskService.java:95-100 | the responses of exactly the tasks assigned to the user, each once, in id order |
| TaskServices.TaskService.GetTasksByCreator | backend/src/main/java/com/nderitu/tma/task/TaskService.java:102-107 | the responses of exactly the tasks the user created, each once, in id order |
| TaskServices.TaskService.GetTasksByStatus | backend/src/main/java/com/nderitu/tma/task/TaskService.java:109-114 | the responses of exactly the tasks with that status, each once, in id order |
| TaskServices.TaskService.AssignTask | backend/src/main/java/com/nderitu/tma/task/TaskService.java:116-131 | a missing task fails; otherwise the table changes exactly as `AssignTo` says, and not at all on its errors |
| TaskServices.TaskService.UpdateTaskStatus | backend/src/main/java/com/nderitu/tma/task/TaskService.java:133-151 | a missing task fails; otherwise the table changes exactly as `ChangeStatus` says, and not at all on its errors |
| TaskServices.TaskService.IsTaskAssignedToUser | backend/src/main/java/com/nderitu/tma/task/TaskService.java:164-169 | fails iff the task is missing; true iff it is assigned to that user id |
| TaskController.SimpleGuardsByRole | backend/src/main/java/com/nderitu/tma/task/TaskController.java:25-111 | only USER passes create, my-tasks and created-by-me; only ADMIN passes delete, assign and list-by-status |
| TaskController.HasAuthority | backend/src/main/java/com/nderitu/tma/task/TaskController.java:25 | `hasAuthority(tag)` against the principal's authorities |
| TaskController.CreateGuard | backend/src/main/java/com/nderitu/tma/task/TaskController.java:25 | the create guard |
| TaskController.ListGuard | backend/src/main/java/com/nderitu/tma/task/TaskController.java:35 | the list guard, read-all or read-own with the assignee parameter equal to the principal id |
| TaskController.AllOrAssignedGuard | backend/src/main/java/com/nderitu/tma/task/TaskController.java:45 | the short-circuit `all or (own and isTaskAssignedToUser)` shape, throwing for a missing task |
| TaskController.ReadGuard | backend/src/main/java/com/nderitu/tma/task/TaskController.java:45 | the read guard |
| TaskController.UpdateGuard | backend/src/main/java/com/nderitu/tma/task/TaskController.java:52 | the update guard, shared with the status endpoint at line 84 |
| TaskController.DeleteGuard | backend/src/main/java/com/nderitu/tma/task/TaskController.java:63 | the delete guard |
| TaskController.AssignGuard | backend/src/main/java/com/nderitu/tma/task/TaskController.java:73 | the assign guard |
| TaskController.OwnListGuard | backend/src/main/java/com/nderitu/tma/task/TaskController.java:95-103 | the my-tasks and created-by-me guard |
| TaskController.StatusListGuard | backend/src/main/java/com/nderitu/tma/task/TaskController.java:111 | the list-by-status guard |
| TaskController.UpdateAdmitted | backend/src/main/java/com/nderitu/tma/task/TaskController.java:52 | an update passes both the guard and the service's ownership check |
| TaskController.ListGuardByRole | backend/src/main/java/com/nderitu/tma/task/TaskController.java:35 | ADMIN may list anything; USER only with the assignee filter equal to its own id |
| TaskController.PerTaskGuardsByRole | backend/src/main/java/com/nderitu/tma/task/TaskController.java:45-84 | ADMIN passes the read, update and status guards without a lookup; for USER they throw on a missing task and grant iff it is assigned to the caller |
| TaskController.EffectiveUpdateByRole | backend/src/main/java/com/nderitu/tma/task/TaskController.java:52 | guard and service together admit an ADMIN iff it created or is assigned the task and a USER iff it is assigned; an ADMIN stranger passes the guard only to be refused, and a USER creator is denied by the guard |
| TaskController.EffectiveAssign | backend/src/main/java/com/nderitu/tma/task/TaskController.java:73 | guard and service together let an assignment through iff the caller is an ADMIN that created the task and the named user is stored; a USER never passes |
| RequestFilter.SecurityContext.constructor | backend/src/main/java/com/nderitu/tma/config/JwtAuthenticationFilter.java:51 | a request starts without an authentication |
| RequestFilter.DoFilterInternal | backend/src/main/java/com/nderitu/tma/config/JwtAuthenticationFilter.java:30-83 | the context ends holding the authentication the decision names, and the chain is called once unless the token fails to parse |
| RequestFilter.Decide | backend/src/main/java/com/nderitu/tma/config/JwtAuthenticationFilter.java:35-82 | the filter's decision; `AuthenticatesIff`, `OnlyParseFailuresRaise` and `NeverOverwrites` state it |
| RequestFilter.HasBearer | backend/src/main/java/com/nderitu/tma/config/JwtAuthenticationFilter.java:42 | the header is present and starts with `Bearer ` |
| RequestFilter.StoredTokenValid | backend/src/main/java/com/nderitu/tma/config/JwtAuthenticationFilter.java:54-56 | the stored-token check; `StoredTokenValidSpec` states it |
| RequestFilter.AuthPathsBypass | backend/src/main/java/com/nderitu/tma/config/JwtAuthenticationFilter.java:35-38 | requests whose path contains `/api/auth` pass untouched |
| RequestFilter.AuthPrefixBypasses | backend/src/main/java/com/nderitu/tma/config/JwtAuthenticationFilter.java:35 | every path with `/api/auth` anywhere inside it bypasses the filter |
| RequestFilter.NoBearerNoAuthentication | backend/src/main/java/com/nderitu/tma/config/JwtAuthenticationFilter.java:42-46 | a request without a `Bearer ` header is forwarded with the context unchanged |
| RequestFilter.NeverOverwrites | backend/src/main/java/com/nderitu/tma/config/JwtAuthenticationFilter.java:51 | an authentication already in the context is never replaced or removed |
| RequestFilter.OnlyParseFailuresRaise | backend/src/main/java/com/nderitu/tma/config/JwtAuthenticationFilter.java:47-48 | the chain is skipped iff the request is off the auth paths, bears a token and the token fails to parse |
| RequestFilter.AuthenticatesIff | backend/src/main/java/com/nderitu/tma/config/JwtAuthenticationFilter.java:35-70 | from an empty context, the filter authenticates iff the path is not exempt, the bearer token's subject loads a user, the token service accepts the token for that user and its stored record is live; the principal is that user with its role's authorities |
| RequestFilter.StoredTokenValidSpec | backend/src/main/java/com/nderitu/tma/config/JwtAuthenticationFilter.java:54-56 | the stored-token check accepts only when a stored record carries the token and is neither expired nor revoked, and refuses when no record carries it |
| RequestFilter.RevokedTokensStopAuthenticating | backend/src/main/java/com/nderitu/tma/config/JwtAuthenticationFilter.java:54-56 | once a user's tokens are revoked, none of that user's tokens passes the stored-token check |
| Seeding.FindByEmailExtended | backend/src/main/java/com/nderitu/tma/seed/SeedDataService.java:59-61 | a user found by email stays the one found when rows are appended |
| Seeding.Registered | backend/src/main/java/com/nderitu/tma/seed/SeedDataService.java:66-75 | the account a registered seed user becomes |
| Seeding.AddSeedUser | backend/src/main/java/com/nderitu/tma/seed/SeedDataService.java:57-81 | one iteration of `createUsers` on the user table; `AddSeedUserFinds` states it |
| Seeding.UsersAfter | backend/src/main/java/com/nderitu/tma/seed/SeedDataService.java:54-85 | the user table after `createUsers`; the `UsersAfter…` lemmas state its properties |
| Seeding.TaskFromSeed | backend/src/main/java/com/nderitu/tma/seed/SeedDataService.java:90-105 | the task a seed entry becomes, or none when skipped; `TaskFromSeedSkips` states when |
| Seeding.TasksFromSeeds | backend/src/main/java/com/nderitu/tma/seed/SeedDataService.java:87-114 | the tasks `createTasks` saves, in order; `TasksFromSeedsSpec` states their shape |
| Seeding.AddSeedUserFinds | backend/src/main/java/com/nderitu/tma/seed/SeedDataService.java:57-81 | one iteration keeps every earlier successful lookup and every other email's lookup; the seed email is found afterwards when its role parses |
| Seeding.UsersAfterAppends | backend/src/main/java/com/nderitu/tma/seed/SeedDataService.java:54-85 | seeding only appends, and every appended row is a seed user with a parsable role |
| Seeding.UsersAfterKeepsExisting | backend/src/main/java/com/nderitu/tma/seed/SeedDataService.java:59-64 | an account that existed before seeding is still the one found by its email |
| Seeding.UsersAfterCovers | backend/src/main/java/com/nderitu/tma/seed/SeedDataService.java:66-75 | every seed user whose role parses has an account afterwards |
| Seeding.UsersAfterIdle | backend/src/main/java/com/nderitu/tma/seed/SeedDataService.java:59-81 | seeding adds nobody when every seed user exists already or carries a bad role name |
| Seeding.UsersAfterIdempotent | backend/src/main/java/com/nderitu/tma/seed/SeedDataService.java:54-85 | seeding the same users twice is the same as seeding them once |
| Seeding.TasksFromSeedsSpec | backend/src/main/java/com/nderitu/tma/seed/SeedDataService.java:87-114 | at most one task per entry; each has an assignee; assignee and creator are seeded users; both timestamps are the load instant |
| Seeding.TaskFromSeedSkips | backend/src/main/java/com/nderitu/tma/seed/SeedDataService.java:90-102 | an entry is skipped iff one of its emails was not seeded or its status or priority name does not parse |
| Seeding.IssuedTokens | backend/src/main/java/com/nderitu/tma/auth/AuthenticationService.java:92-100 | the tokens `saveUserToken` stores for users registered one after another; its length is the number of users |
| Seeding.IssuedTokensAt | backend/src/main/java/com/nderitu/tma/auth/AuthenticationService.java:92-100 | the k-th issued token is a live BEARER token numbered `firstId + k` and signed for the k-th user |
| Seeding.IssuedTokensAppend | backend/src/main/java/com/nderitu/tma/seed/SeedDataService.java:57-81 | registering two lists in a row issues the first list's tokens, then the second's numbered on from them |
| Seeding.IssuedSinceNewTokens | backend/src/main/java/com/nderitu/tma/seed/SeedDataService.java:66-75 | seeding users keeps every stored token unchanged and appends one live BEARER token per new user, owned by that user, with the next id |
| Seeding.IssuedSinceTrans | backend/src/main/java/com/nderitu/tma/seed/SeedDataService.java:57-81 | two stretches of registrations in a row are one stretch, which carries the token-table statement through the loop |
| Seeding.SeedDataService.constructor | backend/src/main/java/com/nderitu/tma/seed/SeedDataService.java:28-30 | the loader shares the authentication service and the task table |
| Seeding.SeedDataService.CreateUser | backend/src/main/java/com/nderitu/tma/seed/SeedDataService.java:58-81 | one iteration changes the user table as `AddSeedUser` says and reports the account now stored under the seed email; the token table keeps its rows and gains exactly the token `register` issues for a newly stored user (`IssuedSince`) |
| Seeding.SeedDataService.CreateUsers | backend/src/main/java/com/nderitu/tma/seed/SeedDataService.java:54-85 | the loop leaves the user table equal to `UsersAfter`; the map holds exactly the seed emails that have an account, each with that account; the token table keeps its rows and gains exactly one issued token per new user, in order (`IssuedSince`) |
| Seeding.SeedDataService.CreateTasks | backend/src/main/java/com/nderitu/tma/seed/SeedDataService.java:87-114 | the loop stores exactly the resolvable entries, in order, under consecutive new ids, and changes no existing task |
| Seeding.SeedDataService.LoadSeedData | backend/src/main/java/com/nderitu/tma/seed/SeedDataService.java:33-52 | users are seeded first, then the tasks resolved against the resulting map; the token table gains exactly the tokens issued for the new users (`IssuedSince`) |

`Task.java`, `User.java`, `Token.java`, `TokenRepository.java`, `UserRepository.java`,
`JwtService.java`, `TaskPriority.java` and the application configuration are not part of this
model. The model assumes these shapes for them:

- the task entity has the fields `TaskResponse` copies;
- the user entity has id, username, email, password and role;
- the token entity has id, token, type, the flags `revoked` and `expired`, and its owner;
- the priority values are `LOW`, `MEDIUM` and `HIGH`, as the frontend's types list them;
- `findAllValidTokenByUser` selects the user's tokens that are neither expired nor revoked;
- a user's `getAuthorities()` is its role's `getAuthorities()`, which the filter installs as the
  authentication's authorities.

## Left out

- The JWT cryptography (signing, expiry, claims) is out of scope. Its four operations are
  uninterpreted functions of `Jwt.JwtService`.
- Password encoding is out of scope. The encoder is a function parameter.
- The authentication manager is out of scope. `Login` takes its verdict as a boolean.
- The user-details lookup in the filter is a function parameter. `WebAuthenticationDetails`
  is not modelled.
- Auditing timestamps are partly modelled. Creation takes the instant as a parameter and sets
  both timestamps. The JPA auditing refresh of `updatedAt` on later saves is not modelled.
- `TaskServices.EditTask`, `TaskServices.AssignTo` and `TaskServices.ChangeStatus` (and so
  `EditTaskSpec`, `AssignToSpec`, `ChangeStatusSpec`, `UpdateTask`, `AssignTask` and
  `UpdateTaskStatus`) leave `updatedAt` as it was. In the running system the auditing listener
  sets it to the instant of the save; that clock is not modelled.
- Paging is not modelled: `TaskServices.TaskService.GetTasks` returns every matching task, not
  one page.
- Database result order is not modelled: queries return rows in id order.
- Logging is not modelled.
- Reading the seed JSON file is not modelled: `LoadSeedData` receives the parsed data. The
  `RuntimeException` for an unreadable file is not modelled either.
- Writing the refresh response to the HTTP output stream is replaced: `RefreshToken` returns
  the response instead.
- Concurrency and transactions are not modelled: each operation runs atomically and alone.
- Entity-level validation on task and user columns is not modelled.
- Integer widths of ids are not modelled, and neither are Java object identity and lazy loading.
  Entities are values compared by id where the queries compare them.
- `RequestFilter.StoredTokenValid`: several stored records with the same token string are
  resolved to the first one. The source's single-result query would throw there, and the
  filter would swallow that.
- `TaskServices.TaskService.CreateTask`, `TaskServices.TaskService.UpdateTask`,
  `TaskServices.NewTask` and `TaskServices.EditTask` require a valid request. Their only
  caller is the controller, which validates the body with `@Valid` before calling them, so
  an invalid request never reaches the service.
- `Authentication.AuthenticationService.Login`: the authentication manager is a boolean
  verdict. It is not tied to the stored password hash.
- `Seeding.SeedDataService.LoadSeedData` returns the user map as a ghost value, because the
  source keeps it internal.
- The controller's request-to-response plumbing is not modelled: HTTP status codes, path
  binding and `ResponseEntity`. Only the guards and the service calls are.
