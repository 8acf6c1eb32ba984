/**
 * The authentication service: registration, login and access-token refresh, as their
 * effects on the user and token tables.
 */
module Authentication {
  import opened Wrappers
  import opened Seqs
  import opened Text
  import opened Roles
  import opened Users
  import opened Tokens
  import opened Jwt

  datatype RegisterRequest = RegisterRequest(username: string, email: string, password: string, role: Role)

  datatype AuthenticationRequest = AuthenticationRequest(username: string, password: string)

  datatype AuthenticationResponse = AuthenticationResponse(accessToken: string, refreshToken: string, user: UserResponse)

  /** The exceptions that leave the service. */
  datatype AuthError =
    | EmailAlreadyRegistered(email: string) // "User with email ... already exists"
    | BadCredentials                        // thrown by the authentication manager
    | UserNotFound                          // `orElseThrow()` on a user lookup that found nothing
    | UsernameNotUnique                     // the single-result username lookup found several rows
    | InvalidToken                          // thrown by the token service while parsing a JWT

  /** Every token belongs to a stored user, and its two flags are always set together. */
  ghost predicate TokensOwned(users: seq<User>, tokens: seq<Token>)
  {
    forall i :: 0 <= i < |tokens| ==> 1 <= tokens[i].userId <= |users| && tokens[i].expired == tokens[i].revoked
  }

  /** How a refresh request is read before any token is touched. */
  datatype RefreshStep = Ignored | Failed(error: AuthError) | Rotate(user: User, refreshToken: string)

  /** The decision `refreshToken` makes from the header, the token service and the user table. */
  function ClassifyRefresh(authHeader: Option<string>, jwt: JwtService, users: seq<User>): RefreshStep
  {
    if authHeader.None? || !StartsWith(authHeader.value, BearerPrefix) then Ignored
    else
      var refreshToken := BearerToken(authHeader.value);
      match jwt.extractUsername(refreshToken)
      case Rejected => Failed(InvalidToken)
      case NoSubject => Ignored
      case Subject(email) =>
        match FindByEmail(users, email)
        case None => Failed(UserNotFound)
        case Some(user) => if jwt.isTokenValid(refreshToken, user) then Rotate(user, refreshToken) else Ignored
  }

  /**
   * A refresh is ignored without a `Bearer ` header. It rotates only for a stored user whose email
   * is the token's subject and for whom the token service accepts the token. The refresh token it
   * hands back is the one presented.
   */
  lemma ClassifyRefreshSpec(authHeader: Option<string>, jwt: JwtService, users: seq<User>)
    ensures authHeader.None? || !StartsWith(authHeader.value, BearerPrefix) ==>
      ClassifyRefresh(authHeader, jwt, users) == Ignored
    ensures ClassifyRefresh(authHeader, jwt, users).Rotate? ==>
      var step := ClassifyRefresh(authHeader, jwt, users);
      && authHeader == Some(BearerPrefix + step.refreshToken)
      && jwt.extractUsername(step.refreshToken) == Subject(step.user.email)
      && step.user in users
      && jwt.isTokenValid(step.refreshToken, step.user)
  {
    if authHeader.Some? && StartsWith(authHeader.value, BearerPrefix) {
      BearerTokenRoundTrip(authHeader.value, "");
      var refreshToken := BearerToken(authHeader.value);
      if jwt.extractUsername(refreshToken).Subject? {
        FindByEmailSpec(users, jwt.extractUsername(refreshToken).name);
      }
    }
  }

  /**
   * The outcome for each bearer token: a token that fails to parse is an error, one without a
   * subject is ignored, an unknown subject email is an error, and a known user's token rotates
   * exactly when the token service accepts it for that user. With unique emails, every stored
   * user whose email is the subject of an accepted token gets a rotation.
   */
  lemma ClassifyRefreshOutcomes(token: string, jwt: JwtService, users: seq<User>)
    ensures var step := ClassifyRefresh(Some(BearerPrefix + token), jwt, users);
      match jwt.extractUsername(token)
      case Rejected => step == Failed(InvalidToken)
      case NoSubject => step == Ignored
      case Subject(email) =>
        match FindByEmail(users, email)
        case None => step == Failed(UserNotFound)
        case Some(u) => step == if jwt.isTokenValid(token, u) then Rotate(u, token) else Ignored
    ensures UniqueEmails(users) ==> forall k ::
      (0 <= k < |users| && jwt.extractUsername(token) == Subject(users[k].email) && jwt.isTokenValid(token, users[k]))
      ==> ClassifyRefresh(Some(BearerPrefix + token), jwt, users) == Rotate(users[k], token)
  {
    BearerTokenRoundTrip("", token);
    forall k | UniqueEmails(users) && 0 <= k < |users|
      ensures FindByEmail(users, users[k].email) == Some(users[k])
    {
      FindByEmailUnique(users, k);
    }
  }

  /** A stored user's id lies within the table. */
  lemma StoredIdInRange(rows: seq<User>, u: User)
    requires DenseIds(rows) && u in rows
    ensures 1 <= u.id <= |rows|
  {
  }

  class AuthenticationService {
    const userRepo: UserRepository
    const tokenRepo: TokenRepository

    ghost predicate Valid()
      reads this, userRepo, tokenRepo
    {
      && userRepo.Valid()
      && tokenRepo.Valid()
      && UniqueEmails(userRepo.rows)
      && TokensOwned(userRepo.rows, tokenRepo.rows)
    }

    constructor (userRepo: UserRepository, tokenRepo: TokenRepository)
      requires userRepo.Valid() && tokenRepo.Valid()
      requires UniqueEmails(userRepo.rows) && TokensOwned(userRepo.rows, tokenRepo.rows)
      ensures Valid() && this.userRepo == userRepo && this.tokenRepo == tokenRepo
    {
      this.userRepo := userRepo;
      this.tokenRepo := tokenRepo;
    }

    /** `saveUserToken`: persist a live BEARER record for the issued access token. */
    method SaveUserToken(user: User, jwtToken: string)
      requires Valid() && 1 <= user.id <= |userRepo.rows|
      modifies tokenRepo
      ensures Valid()
      ensures tokenRepo.rows == old(tokenRepo.rows) + [NewToken(|old(tokenRepo.rows)| + 1, user.id, jwtToken)]
    {
      var saved := tokenRepo.Save(NewToken(0, user.id, jwtToken));
    }

    /** `revokeAllUserTokens`: expire and revoke, in place, every valid token of the user. */
    method RevokeAllUserTokens(user: User)
      requires Valid()
      modifies tokenRepo
      ensures Valid()
      ensures tokenRepo.rows == RevokeAll(old(tokenRepo.rows), user.id)
    {
      if FindAllValidTokenByUser(tokenRepo.rows, user.id) == [] {
        RevokeAllIdle(tokenRepo.rows, user.id);
        return;
      }
      var i := 0;
      while i < |tokenRepo.rows|
        invariant Valid()
        invariant |tokenRepo.rows| == |old(tokenRepo.rows)| && 0 <= i <= |tokenRepo.rows|
        invariant forall k :: 0 <= k < i ==> tokenRepo.rows[k] == Revoke(old(tokenRepo.rows)[k], user.id)
        invariant forall k :: i <= k < |tokenRepo.rows| ==> tokenRepo.rows[k] == old(tokenRepo.rows)[k]
      {
        var token := tokenRepo.rows[i];
        if token.userId == user.id && IsValid(token) {
          tokenRepo.rows := tokenRepo.rows[i := token.(expired := true, revoked := true)];
        }
        i := i + 1;
      }
      RevokeAllAt(old(tokenRepo.rows), user.id);
    }

    /** `register`: refuse a known email; otherwise store the user with its encoded password and one live token. */
    method Register(request: RegisterRequest, encode: string -> string, jwt: JwtService)
      returns (r: Result<AuthenticationResponse, AuthError>)
      requires Valid()
      modifies userRepo, tokenRepo
      ensures Valid()
      ensures old(FindByEmail(userRepo.rows, request.email)).Some? ==>
        && r == Err(EmailAlreadyRegistered(request.email))
        && userRepo.rows == old(userRepo.rows)
        && tokenRepo.rows == old(tokenRepo.rows)
      ensures old(FindByEmail(userRepo.rows, request.email)).None? ==>
        var user := User(|old(userRepo.rows)| + 1, request.username, request.email, encode(request.password), request.role);
        var token := NewToken(|old(tokenRepo.rows)| + 1, user.id, jwt.generateToken(user));
        && userRepo.rows == old(userRepo.rows) + [user]
        && tokenRepo.rows == old(tokenRepo.rows) + [token]
        && FindAllValidTokenByUser(tokenRepo.rows, user.id) == [token]
        && r == Ok(AuthenticationResponse(jwt.generateToken(user), jwt.generateRefreshToken(user), ToUserResponse(user)))
    {
      FindByEmailSpec(userRepo.rows, request.email);
      if FindByEmail(userRepo.rows, request.email).Some? {
        return Err(EmailAlreadyRegistered(request.email));
      }
      // The id is assigned by the table on save.
      var user := User(0, request.username, request.email, encode(request.password), request.role);
      var savedUser := userRepo.Save(user);
      var jwtToken := jwt.generateToken(savedUser);
      var refreshToken := jwt.generateRefreshToken(savedUser);
      ghost var before := tokenRepo.rows;
      SaveUserToken(savedUser, jwtToken);
      var p := (t: Token) => t.userId == savedUser.id && IsValid(t);
      FilterDropsAll(before, p);
      FilterAppend(before, [tokenRepo.rows[|tokenRepo.rows| - 1]], p);
      r := Ok(AuthenticationResponse(jwtToken, refreshToken, ToUserResponse(savedUser)));
    }

    /**
     * `login`: the credential check comes first; a found user's tokens are revoked before the new
     * access token is saved.
     */
    method Login(request: AuthenticationRequest, authenticated: bool, jwt: JwtService)
      returns (r: Result<AuthenticationResponse, AuthError>)
      requires Valid()
      modifies tokenRepo
      ensures Valid()
      ensures !authenticated ==> r == Err(BadCredentials) && tokenRepo.rows == old(tokenRepo.rows)
      ensures authenticated && FindByUsername(userRepo.rows, request.username) == NoRow ==>
        r == Err(UserNotFound) && tokenRepo.rows == old(tokenRepo.rows)
      ensures authenticated && FindByUsername(userRepo.rows, request.username) == ManyRows ==>
        r == Err(UsernameNotUnique) && tokenRepo.rows == old(tokenRepo.rows)
      ensures authenticated && FindByUsername(userRepo.rows, request.username).OneRow? ==>
        var user := FindByUsername(userRepo.rows, request.username).row;
        var token := NewToken(|old(tokenRepo.rows)| + 1, user.id, jwt.generateToken(user));
        && tokenRepo.rows == RevokeAll(old(tokenRepo.rows), user.id) + [token]
        && FindAllValidTokenByUser(tokenRepo.rows, user.id) == [token]
        && r == Ok(AuthenticationResponse(jwt.generateToken(user), jwt.generateRefreshToken(user), ToUserResponse(user)))
    {
      if !authenticated {
        return Err(BadCredentials);
      }
      var found := FindByUsername(userRepo.rows, request.username);
      if found.NoRow? {
        return Err(UserNotFound);
      }
      if found.ManyRows? {
        return Err(UsernameNotUnique);
      }
      var user := found.row;
      FindByUsernameSpec(userRepo.rows, request.username);
      StoredIdInRange(userRepo.rows, user);
      var jwtToken := jwt.generateToken(user);
      var refreshToken := jwt.generateRefreshToken(user);
      RevokeAllAt(tokenRepo.rows, user.id);
      RevokeAllUserTokens(user);
      SaveUserToken(user, jwtToken);
      SingleActiveSession(old(tokenRepo.rows), user.id, |old(tokenRepo.rows)| + 1, jwtToken);
      r := Ok(AuthenticationResponse(jwtToken, refreshToken, ToUserResponse(user)));
    }

    /**
     * `refreshToken`: with a valid refresh token, revoke the user's tokens and save one new access
     * token, handing back the refresh token unchanged. Writing the response body is left out; the
     * response is returned instead.
     */
    method RefreshToken(authHeader: Option<string>, jwt: JwtService)
      returns (r: Result<Option<AuthenticationResponse>, AuthError>)
      requires Valid()
      modifies tokenRepo
      ensures Valid()
      ensures match ClassifyRefresh(authHeader, jwt, userRepo.rows)
        case Ignored => r == Ok(None) && tokenRepo.rows == old(tokenRepo.rows)
        case Failed(e) => r == Err(e) && tokenRepo.rows == old(tokenRepo.rows)
        case Rotate(user, refreshToken) =>
          var token := NewToken(|old(tokenRepo.rows)| + 1, user.id, jwt.generateToken(user));
          && tokenRepo.rows == RevokeAll(old(tokenRepo.rows), user.id) + [token]
          && FindAllValidTokenByUser(tokenRepo.rows, user.id) == [token]
          && r == Ok(Some(AuthenticationResponse(jwt.generateToken(user), refreshToken, ToUserResponse(user))))
    {
      if authHeader.None? || !StartsWith(authHeader.value, BearerPrefix) {
        return Ok(None);
      }
      var refreshToken := BearerToken(authHeader.value);
      var userEmail := jwt.extractUsername(refreshToken);
      if userEmail.Rejected? {
        return Err(InvalidToken);
      }
      if userEmail.Subject? {
        var found := FindByEmail(userRepo.rows, userEmail.name);
        if found.None? {
          return Err(UserNotFound);
        }
        var user := found.value;
        if jwt.isTokenValid(refreshToken, user) {
          FindByEmailSpec(userRepo.rows, userEmail.name);
          StoredIdInRange(userRepo.rows, user);
          var accessToken := jwt.generateToken(user);
          RevokeAllAt(tokenRepo.rows, user.id);
          RevokeAllUserTokens(user);
          SaveUserToken(user, accessToken);
          SingleActiveSession(old(tokenRepo.rows), user.id, |old(tokenRepo.rows)| + 1, accessToken);
          return Ok(Some(AuthenticationResponse(accessToken, refreshToken, ToUserResponse(user))));
        }
      }
      return Ok(None);
    }
  }
}
