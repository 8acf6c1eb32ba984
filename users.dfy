/** User rows and the user table the services share. */
module Users {
  import opened Wrappers
  import opened Seqs
  import opened Roles

  /** A persisted user; `password` holds what the password encoder produced. */
  datatype User = User(id: int, username: string, email: string, password: string, role: Role)

  /** The UserResponse DTO that authentication returns: the user without its password. */
  datatype UserResponse = UserResponse(id: int, username: string, email: string, role: Role)

  function ToUserResponse(u: User): UserResponse
  {
    UserResponse(u.id, u.username, u.email, u.role)
  }

  /** `findByEmail`: the first row with that email. */
  function FindByEmail(rows: seq<User>, email: string): Option<User>
  {
    Find(rows, (u: User) => u.email == email)
  }

  /**
   * What a single-result finder yields: no row, exactly one row, or several rows (the query
   * then throws instead of picking one).
   */
  datatype Single<T> = NoRow | OneRow(row: T) | ManyRows

  /** The rows carrying `username`, in table order. */
  function UsersNamed(rows: seq<User>, username: string): seq<User>
  {
    Filter(rows, (u: User) => u.username == username)
  }

  /** `findByUsername`: usernames are not kept unique, so the single-result query can fail. */
  function FindByUsername(rows: seq<User>, username: string): Single<User>
  {
    var named := UsersNamed(rows, username);
    if named == [] then NoRow else if |named| == 1 then OneRow(named[0]) else ManyRows
  }

  /** `findById`. */
  function FindById(rows: seq<User>, id: int): Option<User>
  {
    Find(rows, (u: User) => u.id == id)
  }

  /** No two rows share an email. */
  ghost predicate UniqueEmails(rows: seq<User>)
  {
    forall i, j :: 0 <= i < |rows| && 0 <= j < |rows| && rows[i].email == rows[j].email ==> i == j
  }

  /** Ids are assigned 1, 2, 3, ... in insertion order. */
  ghost predicate DenseIds(rows: seq<User>)
  {
    forall i :: 0 <= i < |rows| ==> rows[i].id == i + 1
  }

  /** findByEmail finds a stored user with that email, and finds nothing only when no row has it. */
  lemma FindByEmailSpec(rows: seq<User>, email: string)
    ensures FindByEmail(rows, email).Some? ==>
      FindByEmail(rows, email).value in rows && FindByEmail(rows, email).value.email == email
    ensures FindByEmail(rows, email).None? <==> forall k :: 0 <= k < |rows| ==> rows[k].email != email
  {
    FindSpec(rows, (u: User) => u.email == email);
  }

  /**
   * findByUsername finds nothing exactly when no row has the username; it yields a row only when
   * that row is the one stored row with the username; two different rows sharing it make it fail.
   */
  lemma FindByUsernameSpec(rows: seq<User>, username: string)
    ensures FindByUsername(rows, username) == NoRow <==> forall k :: 0 <= k < |rows| ==> rows[k].username != username
    ensures FindByUsername(rows, username).OneRow? ==>
      var u := FindByUsername(rows, username).row;
      && u in rows && u.username == username
      && forall k :: 0 <= k < |rows| && rows[k].username == username ==> rows[k] == u
    ensures forall i, j ::
      0 <= i < |rows| && 0 <= j < |rows| && rows[i] != rows[j] && rows[i].username == username && rows[j].username == username
      ==> FindByUsername(rows, username) == ManyRows
  {
    var p := (u: User) => u.username == username;
    var named := UsersNamed(rows, username);
    forall k | 0 <= k < |rows|
      ensures rows[k].username == username <==> rows[k] in named
    {
      FilterMembership(rows, p, rows[k]);
    }
    if named != [] {
      FilterMembership(rows, p, named[0]);
    }
    forall i, j | 0 <= i < |rows| && 0 <= j < |rows| && rows[i] != rows[j]
      && rows[i].username == username && rows[j].username == username
      ensures FindByUsername(rows, username) == ManyRows
    {
      assert rows[i] in named && rows[j] in named;
    }
  }

  /** With ids assigned densely, findById is a direct index, and finds nothing outside 1..|rows|. */
  lemma {:induction false} FindByIdDense(rows: seq<User>, id: int, first: int)
    requires forall i :: 0 <= i < |rows| ==> rows[i].id == first + i
    ensures FindById(rows, id) == if first <= id < first + |rows| then Some(rows[id - first]) else None
  {
    if rows != [] {
      FindByIdDense(rows[1..], id, first + 1);
    }
  }

  /** When emails are unique, the row with a given email is the one findByEmail returns. */
  lemma FindByEmailUnique(rows: seq<User>, k: int)
    requires UniqueEmails(rows) && 0 <= k < |rows|
    ensures FindByEmail(rows, rows[k].email) == Some(rows[k])
  {
    FindByEmailSpec(rows, rows[k].email);
  }

  /** The user table; `save` of a new user assigns the next id. */
  class UserRepository {
    var rows: seq<User>

    ghost predicate Valid()
      reads this
    {
      DenseIds(rows)
    }

    constructor ()
      ensures Valid() && rows == []
    {
      rows := [];
    }

    method Save(u: User) returns (saved: User)
      requires Valid()
      modifies this
      ensures Valid()
      ensures saved == u.(id := |old(rows)| + 1)
      ensures rows == old(rows) + [saved]
    {
      saved := u.(id := |rows| + 1);
      rows := rows + [saved];
    }
  }
}
