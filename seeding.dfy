/** Start-up seeding: users through registration, then tasks straight into the task table. */
module Seeding {
  import opened Wrappers
  import opened Seqs
  import opened Roles
  import opened Users
  import opened Tokens
  import opened Jwt
  import opened Tasks
  import opened TaskStore
  import opened Authentication

  /** One entry of the seed file's user list; the role is still a name. */
  datatype SeedUser = SeedUser(username: string, email: string, password: string, role: string)

  /** One entry of the seed file's task list; status and priority are still names. */
  datatype SeedTask = SeedTask(
    title: string,
    description: Option<string>,
    status: string,
    priority: string,
    assigneeEmail: string,
    creatorEmail: string
  )

  /** The parsed seed file. */
  datatype SeedData = SeedData(users: seq<SeedUser>, tasks: seq<SeedTask>)

  function Emails(seeds: seq<SeedUser>): seq<string>
  {
    seq(|seeds|, k requires 0 <= k < |seeds| => seeds[k].email)
  }

  /** The registered user a seed user becomes when it is appended to `rows`. */
  function Registered(rows: seq<User>, s: SeedUser, encode: string -> string): User
    requires ValueOf(s.role).Some?
  {
    User(|rows| + 1, s.username, s.email, encode(s.password), ValueOf(s.role).value)
  }

  /**
   * One iteration of `createUsers` on the user table: a seed user whose email is already stored
   * is skipped, one whose role name does not parse is skipped (the exception is logged), and any
   * other is registered.
   */
  function AddSeedUser(rows: seq<User>, s: SeedUser, encode: string -> string): seq<User>
  {
    if FindByEmail(rows, s.email).Some? || ValueOf(s.role).None? then rows
    else rows + [Registered(rows, s, encode)]
  }

  /** The user table after `createUsers` has worked through `seeds`. */
  function UsersAfter(rows: seq<User>, seeds: seq<SeedUser>, encode: string -> string): seq<User>
  {
    if seeds == [] then rows
    else AddSeedUser(UsersAfter(rows, seeds[..|seeds| - 1], encode), seeds[|seeds| - 1], encode)
  }

  /** A user found by email stays the one found when rows are appended. */
  lemma FindByEmailExtended(a: seq<User>, b: seq<User>, email: string)
    requires FindByEmail(a, email).Some?
    ensures FindByEmail(a + b, email) == FindByEmail(a, email)
  {
    FindAppend(a, b, (u: User) => u.email == email);
  }

  /**
   * One step leaves every lookup of another email, and every lookup that already succeeded, as
   * it was; the seed user's own email is found afterwards whenever its role parses.
   */
  lemma AddSeedUserFinds(rows: seq<User>, s: SeedUser, encode: string -> string, email: string)
    ensures FindByEmail(rows, email).Some? ==> FindByEmail(AddSeedUser(rows, s, encode), email) == FindByEmail(rows, email)
    ensures email != s.email ==> FindByEmail(AddSeedUser(rows, s, encode), email) == FindByEmail(rows, email)
    ensures ValueOf(s.role).Some? ==> FindByEmail(AddSeedUser(rows, s, encode), s.email).Some?
  {
    if AddSeedUser(rows, s, encode) != rows {
      FindAppend(rows, [Registered(rows, s, encode)], (u: User) => u.email == email);
      FindAppend(rows, [Registered(rows, s, encode)], (u: User) => u.email == s.email);
    }
  }

  /**
   * Seeding only appends, and only seed users: the old table is a prefix of the new one and
   * every appended row is a registered seed user with a parsable role.
   */
  lemma {:induction false} UsersAfterAppends(rows: seq<User>, seeds: seq<SeedUser>, encode: string -> string)
    ensures |rows| <= |UsersAfter(rows, seeds, encode)|
    ensures UsersAfter(rows, seeds, encode)[..|rows|] == rows
    ensures forall k :: |rows| <= k < |UsersAfter(rows, seeds, encode)| ==>
      UsersAfter(rows, seeds, encode)[k].email in Emails(seeds)
      && ValueOf(Name(UsersAfter(rows, seeds, encode)[k].role)).Some?
  {
    if seeds != [] {
      var init := seeds[..|seeds| - 1];
      UsersAfterAppends(rows, init, encode);
      var prev := UsersAfter(rows, init, encode);
      var after := UsersAfter(rows, seeds, encode);
      forall k | |rows| <= k < |after|
        ensures after[k].email in Emails(seeds) && ValueOf(Name(after[k].role)).Some?
      {
        ValueOfName(after[k].role, "");
        if k < |prev| {
          assert after[k] == prev[k];
          var j :| 0 <= j < |init| && Emails(init)[j] == prev[k].email;
          assert Emails(seeds)[j] == prev[k].email;
        } else {
          assert Emails(seeds)[|seeds| - 1] == after[k].email;
        }
      }
    }
  }

  /** An account that exists before seeding is the one found by its email afterwards: seeding never replaces users. */
  lemma {:induction false} UsersAfterKeepsExisting(rows: seq<User>, seeds: seq<SeedUser>, encode: string -> string, email: string)
    requires FindByEmail(rows, email).Some?
    ensures FindByEmail(UsersAfter(rows, seeds, encode), email) == FindByEmail(rows, email)
  {
    if seeds != [] {
      var init := seeds[..|seeds| - 1];
      UsersAfterKeepsExisting(rows, init, encode, email);
      AddSeedUserFinds(UsersAfter(rows, init, encode), seeds[|seeds| - 1], encode, email);
    }
  }

  /** After seeding, every seed user whose role parses has an account under its email. */
  lemma {:induction false} UsersAfterCovers(rows: seq<User>, seeds: seq<SeedUser>, encode: string -> string, k: int)
    requires 0 <= k < |seeds| && ValueOf(seeds[k].role).Some?
    ensures FindByEmail(UsersAfter(rows, seeds, encode), seeds[k].email).Some?
  {
    var init := seeds[..|seeds| - 1];
    if k < |seeds| - 1 {
      assert init[k] == seeds[k];
      UsersAfterCovers(rows, init, encode, k);
    }
    AddSeedUserFinds(UsersAfter(rows, init, encode), seeds[|seeds| - 1], encode, seeds[k].email);
  }

  /** Seeding changes nothing when every seed user already has an account or carries a bad role name. */
  lemma {:induction false} UsersAfterIdle(rows: seq<User>, seeds: seq<SeedUser>, encode: string -> string)
    requires forall k :: 0 <= k < |seeds| ==>
      FindByEmail(rows, seeds[k].email).Some? || ValueOf(seeds[k].role).None?
    ensures UsersAfter(rows, seeds, encode) == rows
  {
    if seeds != [] {
      var init := seeds[..|seeds| - 1];
      assert forall k :: 0 <= k < |init| ==> init[k] == seeds[k];
      UsersAfterIdle(rows, init, encode);
    }
  }

  /** Seeding is idempotent: a second run over the same seed users adds nobody. */
  lemma UsersAfterIdempotent(rows: seq<User>, seeds: seq<SeedUser>, encode: string -> string)
    ensures UsersAfter(UsersAfter(rows, seeds, encode), seeds, encode) == UsersAfter(rows, seeds, encode)
  {
    var after := UsersAfter(rows, seeds, encode);
    forall k | 0 <= k < |seeds| && ValueOf(seeds[k].role).Some?
      ensures FindByEmail(after, seeds[k].email).Some?
    {
      UsersAfterCovers(rows, seeds, encode, k);
    }
    UsersAfterIdle(after, seeds, encode);
  }

  /**
   * The task a seed task becomes: it is skipped when its assignee or creator email was not
   * seeded, or when its status or priority name does not parse.
   */
  function TaskFromSeed(st: SeedTask, userMap: map<string, User>, now: int): Option<Task>
  {
    if st.assigneeEmail !in userMap || st.creatorEmail !in userMap then None
    else match (StatusValueOf(st.status), PriorityValueOf(st.priority))
      case (Some(status), Some(priority)) =>
        Some(Task(0, st.title, st.description, status, priority,
                  Some(userMap[st.assigneeEmail]), userMap[st.creatorEmail], now, now))
      case _ => None
  }

  /** The tasks `createTasks` saves, in order, before ids are assigned. */
  function TasksFromSeeds(seeds: seq<SeedTask>, userMap: map<string, User>, now: int): seq<Task>
  {
    if seeds == [] then []
    else
      TasksFromSeeds(seeds[..|seeds| - 1], userMap, now)
      + match TaskFromSeed(seeds[|seeds| - 1], userMap, now)
        case Some(t) => [t]
        case None => []
  }

  /** Every seeded task has an assignee; assignee and creator are seeded users; at most one task per entry. */
  lemma {:induction false} TasksFromSeedsSpec(seeds: seq<SeedTask>, userMap: map<string, User>, now: int)
    ensures |TasksFromSeeds(seeds, userMap, now)| <= |seeds|
    ensures forall t :: t in TasksFromSeeds(seeds, userMap, now) ==>
      && t.assignee.Some? && t.assignee.value in userMap.Values
      && t.creator in userMap.Values
      && t.createdAt == now && t.updatedAt == now
  {
    if seeds != [] {
      TasksFromSeedsSpec(seeds[..|seeds| - 1], userMap, now);
      var st := seeds[|seeds| - 1];
      if TaskFromSeed(st, userMap, now).Some? {
        assert userMap[st.assigneeEmail] in userMap.Values;
        assert userMap[st.creatorEmail] in userMap.Values;
      }
    }
  }

  /** An entry is skipped exactly when one of its emails is unseeded or a name does not parse. */
  lemma TaskFromSeedSkips(st: SeedTask, userMap: map<string, User>, now: int)
    ensures TaskFromSeed(st, userMap, now).None? <==>
      st.assigneeEmail !in userMap || st.creatorEmail !in userMap
      || StatusValueOf(st.status).None? || PriorityValueOf(st.priority).None?
  {
  }

  /**
   * The tokens `register` saves for `users` registered one after another, with the token ids
   * counting up from `firstId`: each is a live BEARER token signed for its user.
   */
  function IssuedTokens(users: seq<User>, firstId: int, jwt: JwtService): (r: seq<Token>)
    ensures |r| == |users|
  {
    seq(|users|, k requires 0 <= k < |users| => NewToken(firstId + k, users[k].id, jwt.generateToken(users[k])))
  }

  /** The k-th issued token is live, of type BEARER, numbered `firstId + k` and signed for the k-th user. */
  lemma IssuedTokensAt(users: seq<User>, firstId: int, jwt: JwtService)
    ensures forall k :: 0 <= k < |users| ==>
      var t := IssuedTokens(users, firstId, jwt)[k];
      && t.id == firstId + k && t.userId == users[k].id && t.token == jwt.generateToken(users[k])
      && t.tokenType == BEARER && IsValid(t)
  {
  }

  /** Registering `a` and then `b` issues the tokens of `a`, then those of `b` numbered on from them. */
  lemma IssuedTokensAppend(a: seq<User>, b: seq<User>, firstId: int, jwt: JwtService)
    ensures IssuedTokens(a + b, firstId, jwt) == IssuedTokens(a, firstId, jwt) + IssuedTokens(b, firstId + |a|, jwt)
  {
    var whole, left, right := IssuedTokens(a + b, firstId, jwt), IssuedTokens(a, firstId, jwt), IssuedTokens(b, firstId + |a|, jwt);
    forall k | 0 <= k < |whole|
      ensures whole[k] == (left + right)[k]
    {
      if k < |a| {
        assert (a + b)[k] == a[k];
        assert whole[k] == NewToken(firstId + k, a[k].id, jwt.generateToken(a[k]));
        assert left[k] == whole[k];
      } else {
        assert (a + b)[k] == b[k - |a|];
        assert whole[k] == NewToken(firstId + k, b[k - |a|].id, jwt.generateToken(b[k - |a|]));
        assert right[k - |a|] == whole[k];
      }
    }
  }

  /**
   * Between the user tables `users0` and `users` only rows were appended, and between the token
   * tables `tokens0` and `tokens` exactly the tokens `register` issues for those new users.
   */
  ghost predicate IssuedSince(users0: seq<User>, users: seq<User>, tokens0: seq<Token>, tokens: seq<Token>, jwt: JwtService)
  {
    users0 <= users && tokens == tokens0 + IssuedTokens(users[|users0|..], |tokens0| + 1, jwt)
  }

  /**
   * Registration only appends to the token table: the old rows stay as they were, and each new
   * row is a live BEARER token of the user stored in the same position among the new users.
   */
  lemma IssuedSinceNewTokens(users0: seq<User>, users: seq<User>, tokens0: seq<Token>, tokens: seq<Token>, jwt: JwtService)
    requires IssuedSince(users0, users, tokens0, tokens, jwt)
    ensures |tokens| - |tokens0| == |users| - |users0|
    ensures tokens[..|tokens0|] == tokens0
    ensures forall k :: |tokens0| <= k < |tokens| ==>
      && IsValid(tokens[k]) && tokens[k].tokenType == BEARER && tokens[k].id == k + 1
      && tokens[k].userId == users[|users0| + (k - |tokens0|)].id
  {
  }

  /** Two stretches of registrations in a row are one stretch. */
  lemma IssuedSinceTrans(users0: seq<User>, users1: seq<User>, users2: seq<User>,
                         tokens0: seq<Token>, tokens1: seq<Token>, tokens2: seq<Token>, jwt: JwtService)
    requires IssuedSince(users0, users1, tokens0, tokens1, jwt)
    requires IssuedSince(users1, users2, tokens1, tokens2, jwt)
    ensures IssuedSince(users0, users2, tokens0, tokens2, jwt)
  {
    var first, second := users1[|users0|..], users2[|users1|..];
    assert users2[|users0|..] == first + second;
    IssuedTokensAppend(first, second, |tokens0| + 1, jwt);
    assert |tokens1| + 1 == |tokens0| + 1 + |first|;
    calc {
      tokens2;
      tokens1 + IssuedTokens(second, |tokens1| + 1, jwt);
      (tokens0 + IssuedTokens(first, |tokens0| + 1, jwt)) + IssuedTokens(second, |tokens0| + 1 + |first|, jwt);
      tokens0 + (IssuedTokens(first, |tokens0| + 1, jwt) + IssuedTokens(second, |tokens0| + 1 + |first|, jwt));
      tokens0 + IssuedTokens(users2[|users0|..], |tokens0| + 1, jwt);
    }
  }

  /**
   * `after` is `before` with the tasks `ts` saved one by one under the ids `start`,
   * `start + 1`, ..., and `next` is the id after the last of them.
   */
  ghost predicate Appended(before: map<int, Task>, start: int, ts: seq<Task>, after: map<int, Task>, next: int)
  {
    && next == start + |ts|
    && (forall id :: id in after <==> id in before || start <= id < next)
    && (forall id :: id in before ==> after[id] == before[id])
    && (forall k :: 0 <= k < |ts| ==> after[start + k] == ts[k].(id := start + k))
  }

  /** The seeding service: the authentication service registers users, tasks go straight to the table. */
  class SeedDataService {
    const auth: AuthenticationService
    const taskRepo: TaskRepository

    ghost predicate Valid()
      reads this, auth, auth.userRepo, auth.tokenRepo, taskRepo
    {
      auth.Valid() && taskRepo.Valid()
    }

    constructor (auth: AuthenticationService, taskRepo: TaskRepository)
      ensures this.auth == auth && this.taskRepo == taskRepo
    {
      this.auth := auth;
      this.taskRepo := taskRepo;
    }

    /** One pass of the `createUsers` loop body, without the map: the account stored under the seed email afterwards. */
    method CreateUser(seedUser: SeedUser, encode: string -> string, jwt: JwtService) returns (created: Option<User>)
      requires Valid()
      modifies auth.userRepo, auth.tokenRepo
      ensures Valid()
      ensures auth.userRepo.rows == AddSeedUser(old(auth.userRepo.rows), seedUser, encode)
      ensures created == FindByEmail(auth.userRepo.rows, seedUser.email)
      ensures |auth.tokenRepo.rows| - |old(auth.tokenRepo.rows)| == |auth.userRepo.rows| - |old(auth.userRepo.rows)|
      ensures IssuedSince(old(auth.userRepo.rows), auth.userRepo.rows, old(auth.tokenRepo.rows), auth.tokenRepo.rows, jwt)
    {
      created := FindByEmail(auth.userRepo.rows, seedUser.email);
      if created.Some? {
        assert auth.userRepo.rows[|old(auth.userRepo.rows)|..] == [];
        return;
      }
      var role := ValueOf(seedUser.role);
      if role.None? {
        assert auth.userRepo.rows[|old(auth.userRepo.rows)|..] == [];
        return;
      }
      ghost var before := auth.userRepo.rows;
      var request := RegisterRequest(seedUser.username, seedUser.email, seedUser.password, role.value);
      var response := auth.Register(request, encode, jwt);
      assert auth.userRepo.rows == before + [Registered(before, seedUser, encode)];
      assert auth.userRepo.rows[|before|..] == [Registered(before, seedUser, encode)];
      created := FindByEmail(auth.userRepo.rows, seedUser.email);
    }

    /**
     * `createUsers`: the map holds, for every seed email that has an account afterwards, the
     * account stored under it; each registration also stores one token.
     */
    method CreateUsers(seedUsers: seq<SeedUser>, encode: string -> string, jwt: JwtService)
      returns (userMap: map<string, User>)
      requires Valid()
      modifies auth.userRepo, auth.tokenRepo
      ensures Valid()
      ensures auth.userRepo.rows == UsersAfter(old(auth.userRepo.rows), seedUsers, encode)
      ensures forall e :: e in userMap <==> e in Emails(seedUsers) && FindByEmail(auth.userRepo.rows, e).Some?
      ensures forall e :: e in userMap ==> FindByEmail(auth.userRepo.rows, e) == Some(userMap[e])
      ensures |auth.tokenRepo.rows| - |old(auth.tokenRepo.rows)| == |auth.userRepo.rows| - |old(auth.userRepo.rows)|
      ensures IssuedSince(old(auth.userRepo.rows), auth.userRepo.rows, old(auth.tokenRepo.rows), auth.tokenRepo.rows, jwt)
    {
      userMap := map[];
      var i := 0;
      while i < |seedUsers|
        invariant 0 <= i <= |seedUsers|
        invariant Valid()
        invariant auth.userRepo.rows == UsersAfter(old(auth.userRepo.rows), seedUsers[..i], encode)
        invariant forall e :: e in userMap <==> e in Emails(seedUsers[..i]) && FindByEmail(auth.userRepo.rows, e).Some?
        invariant forall e :: e in userMap ==> FindByEmail(auth.userRepo.rows, e) == Some(userMap[e])
        invariant |auth.tokenRepo.rows| - |old(auth.tokenRepo.rows)| == |auth.userRepo.rows| - |old(auth.userRepo.rows)|
        invariant IssuedSince(old(auth.userRepo.rows), auth.userRepo.rows, old(auth.tokenRepo.rows), auth.tokenRepo.rows, jwt)
      {
        var seedUser := seedUsers[i];
        assert seedUsers[..i + 1][..i] == seedUsers[..i];
        assert Emails(seedUsers[..i + 1]) == Emails(seedUsers[..i]) + [seedUser.email];
        ghost var before, tokensBefore := auth.userRepo.rows, auth.tokenRepo.rows;
        var created := CreateUser(seedUser, encode, jwt);
        IssuedSinceTrans(old(auth.userRepo.rows), before, auth.userRepo.rows,
                         old(auth.tokenRepo.rows), tokensBefore, auth.tokenRepo.rows, jwt);
        forall e
          ensures FindByEmail(before, e).Some? ==> FindByEmail(auth.userRepo.rows, e) == FindByEmail(before, e)
          ensures e != seedUser.email ==> FindByEmail(auth.userRepo.rows, e) == FindByEmail(before, e)
        {
          AddSeedUserFinds(before, seedUser, encode, e);
        }
        if created.Some? {
          userMap := userMap[seedUser.email := created.value];
        }
        i := i + 1;
      }
      assert seedUsers[..i] == seedUsers;
    }

    /** `createTasks`: every entry that resolves is saved under the next id; the rest are skipped. */
    method CreateTasks(seedTasks: seq<SeedTask>, userMap: map<string, User>, now: int)
      requires taskRepo.Valid()
      modifies taskRepo
      ensures taskRepo.Valid()
      ensures Appended(old(taskRepo.rows), old(taskRepo.nextId), TasksFromSeeds(seedTasks, userMap, now),
                       taskRepo.rows, taskRepo.nextId)
    {
      var i := 0;
      while i < |seedTasks|
        invariant 0 <= i <= |seedTasks|
        invariant taskRepo.Valid()
        invariant Appended(old(taskRepo.rows), old(taskRepo.nextId), TasksFromSeeds(seedTasks[..i], userMap, now),
                           taskRepo.rows, taskRepo.nextId)
      {
        assert seedTasks[..i + 1][..i] == seedTasks[..i];
        var task := TaskFromSeed(seedTasks[i], userMap, now);
        if task.Some? {
          var saved := taskRepo.Insert(task.value);
        }
        i := i + 1;
      }
      assert seedTasks[..i] == seedTasks;
    }

    /** `loadSeedData` on an already parsed seed file. */
    method LoadSeedData(seed: SeedData, encode: string -> string, jwt: JwtService, now: int)
      returns (ghost userMap: map<string, User>)
      requires Valid()
      modifies auth.userRepo, auth.tokenRepo, taskRepo
      ensures Valid()
      ensures auth.userRepo.rows == UsersAfter(old(auth.userRepo.rows), seed.users, encode)
      ensures forall e :: e in userMap <==> e in Emails(seed.users) && FindByEmail(auth.userRepo.rows, e).Some?
      ensures forall e :: e in userMap ==> FindByEmail(auth.userRepo.rows, e) == Some(userMap[e])
      ensures IssuedSince(old(auth.userRepo.rows), auth.userRepo.rows, old(auth.tokenRepo.rows), auth.tokenRepo.rows, jwt)
      ensures Appended(old(taskRepo.rows), old(taskRepo.nextId), TasksFromSeeds(seed.tasks, userMap, now),
                       taskRepo.rows, taskRepo.nextId)
    {
      var users := CreateUsers(seed.users, encode, jwt);
      userMap := users;
      CreateTasks(seed.tasks, users, now);
    }
  }
}
