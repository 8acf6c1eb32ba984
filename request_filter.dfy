/**
 * The per-request JWT filter: it decides whether a request carries a usable access token and,
 * if so, places an authentication for its user in the security context.
 */
module RequestFilter {
  import opened Wrappers
  import opened Seqs
  import opened Text
  import opened Roles
  import opened Users
  import opened Tokens
  import opened Jwt

  /** The authentication the filter installs: the loaded user and its granted authorities. */
  datatype Authentication = Authentication(principal: User, authorities: seq<string>)

  /** The parts of an HTTP request the filter reads; `authorization` is None without the header. */
  datatype HttpRequest = HttpRequest(servletPath: string, authorization: Option<string>)

  /**
   * How the filter ends: it hands the request on to the rest of the chain, or an exception from
   * parsing the token leaves it before the chain is called.
   */
  datatype Outcome = Forwarded | Raised

  /** The per-request security context; it starts out without an authentication. */
  class SecurityContext {
    var authentication: Option<Authentication>

    constructor ()
      ensures authentication == None
    {
      authentication := None;
    }
  }

  /** Paths under the authentication endpoints skip the filter's work. */
  const AuthPath: string := "/api/auth"

  /** The stored-token check: a record for this token exists and is neither expired nor revoked. */
  predicate StoredTokenValid(tokens: seq<Token>, jwt: string)
  {
    match FindByToken(tokens, jwt)
    case Some(t) => IsValid(t)
    case None => false
  }

  /** The request carries an `Authorization` header that starts with `Bearer `. */
  predicate HasBearer(request: HttpRequest)
  {
    request.authorization.Some? && StartsWith(request.authorization.value, BearerPrefix)
  }

  /** The filter's effect on the context and how it ends, as one value. */
  datatype Effect = Effect(authentication: Option<Authentication>, outcome: Outcome)

  /**
   * `doFilterInternal` as a function of the request, the context's authentication beforehand,
   * the token oracle, the user-details lookup and the token table. A failed user lookup throws
   * inside the try block and is swallowed.
   */
  function Decide(request: HttpRequest, current: Option<Authentication>, jwt: JwtService,
                  loadUser: string -> Option<User>, tokens: seq<Token>): Effect
  {
    if Contains(request.servletPath, AuthPath) then Effect(current, Forwarded)
    else if !HasBearer(request) then Effect(current, Forwarded)
    else
      var token := BearerToken(request.authorization.value);
      match jwt.extractUsername(token)
      case Rejected => Effect(current, Raised)
      case NoSubject => Effect(current, Forwarded)
      case Subject(email) =>
        if current.Some? then Effect(current, Forwarded)
        else match loadUser(email)
          case None => Effect(current, Forwarded)
          case Some(user) =>
            if jwt.isTokenValid(token, user) && StoredTokenValid(tokens, token)
            then Effect(Some(Authentication(user, Authorities(user.role))), Forwarded)
            else Effect(current, Forwarded)
  }

  /** The filter, run against a context; it returns how often it called the rest of the chain. */
  method DoFilterInternal(context: SecurityContext, request: HttpRequest, jwt: JwtService,
                          loadUser: string -> Option<User>, tokenRepo: TokenRepository)
    returns (chainCalls: nat)
    modifies context
    ensures var effect := Decide(request, old(context.authentication), jwt, loadUser, tokenRepo.rows);
      && context.authentication == effect.authentication
      && chainCalls == (if effect.outcome == Forwarded then 1 else 0)
  {
    chainCalls := 0;
    if Contains(request.servletPath, AuthPath) {
      chainCalls := chainCalls + 1;
      return;
    }
    if request.authorization.None? || !StartsWith(request.authorization.value, BearerPrefix) {
      chainCalls := chainCalls + 1;
      return;
    }
    var token := BearerToken(request.authorization.value);
    var userEmail := jwt.extractUsername(token);
    if userEmail.Rejected? {
      return;
    }
    if userEmail.Subject? && context.authentication.None? {
      var userDetails := loadUser(userEmail.name);
      if userDetails.Some? {
        var stored := FindByToken(tokenRepo.rows, token);
        var isTokenValid := if stored.Some? then IsValid(stored.value) else false;
        if jwt.isTokenValid(token, userDetails.value) && isTokenValid {
          context.authentication := Some(Authentication(userDetails.value, Authorities(userDetails.value.role)));
        }
      }
    }
    chainCalls := chainCalls + 1;
  }

  /** Requests to the authentication endpoints pass untouched, whatever they carry. */
  lemma AuthPathsBypass(request: HttpRequest, current: Option<Authentication>, jwt: JwtService,
                        loadUser: string -> Option<User>, tokens: seq<Token>)
    requires Contains(request.servletPath, AuthPath)
    ensures Decide(request, current, jwt, loadUser, tokens) == Effect(current, Forwarded)
  {
  }

  /** Every path under /api/auth/ bypasses the filter, wherever the prefix sits in the path. */
  lemma AuthPrefixBypasses(prefix: string, rest: string)
    ensures Contains(prefix + AuthPath + rest, AuthPath)
  {
    var s := prefix + AuthPath + rest;
    assert s[|prefix|..|prefix| + |AuthPath|] == AuthPath;
    assert OccursAt(s, AuthPath, |prefix|);
    ContainsIffOccurs(s, AuthPath);
  }

  /** A request without a bearer header is forwarded with the context unchanged. */
  lemma NoBearerNoAuthentication(request: HttpRequest, current: Option<Authentication>, jwt: JwtService,
                                 loadUser: string -> Option<User>, tokens: seq<Token>)
    requires !HasBearer(request)
    ensures Decide(request, current, jwt, loadUser, tokens) == Effect(current, Forwarded)
  {
  }

  /** An authentication already in the context is never replaced or removed. */
  lemma NeverOverwrites(request: HttpRequest, current: Option<Authentication>, jwt: JwtService,
                        loadUser: string -> Option<User>, tokens: seq<Token>)
    requires current.Some?
    ensures Decide(request, current, jwt, loadUser, tokens).authentication == current
  {
  }

  /** Only a token that fails to parse stops the chain; every other request is forwarded once. */
  lemma OnlyParseFailuresRaise(request: HttpRequest, current: Option<Authentication>, jwt: JwtService,
                               loadUser: string -> Option<User>, tokens: seq<Token>)
    ensures Decide(request, current, jwt, loadUser, tokens).outcome == Raised <==>
      !Contains(request.servletPath, AuthPath) && HasBearer(request)
      && jwt.extractUsername(BearerToken(request.authorization.value)) == Rejected
  {
  }

  /**
   * Starting from an empty context, the filter authenticates exactly when the request is off the
   * authentication paths, bears a token whose subject loads a user, the oracle accepts the token
   * for that user and the stored record of the token is still valid; the principal is that user
   * with its role's authorities.
   */
  lemma AuthenticatesIff(request: HttpRequest, jwt: JwtService, loadUser: string -> Option<User>,
                         tokens: seq<Token>)
    ensures var effect := Decide(request, None, jwt, loadUser, tokens);
      effect.authentication.Some? <==>
        && !Contains(request.servletPath, AuthPath)
        && HasBearer(request)
        && var token := BearerToken(request.authorization.value);
           && jwt.extractUsername(token).Subject?
           && loadUser(jwt.extractUsername(token).name).Some?
           && jwt.isTokenValid(token, loadUser(jwt.extractUsername(token).name).value)
           && StoredTokenValid(tokens, token)
    ensures var effect := Decide(request, None, jwt, loadUser, tokens);
      effect.authentication.Some? ==>
        && effect.outcome == Forwarded
        && var user := loadUser(jwt.extractUsername(BearerToken(request.authorization.value)).name).value;
           effect.authentication == Some(Authentication(user, Authorities(user.role)))
  {
  }

  /**
   * The stored-token check accepts a token only if some stored record carries it and is valid;
   * with no record, or with a revoked or expired first record, it refuses.
   */
  lemma StoredTokenValidSpec(tokens: seq<Token>, jwt: string)
    ensures StoredTokenValid(tokens, jwt) ==>
      FindByToken(tokens, jwt).Some? && FindByToken(tokens, jwt).value in tokens
      && FindByToken(tokens, jwt).value.token == jwt && IsValid(FindByToken(tokens, jwt).value)
    ensures (forall k :: 0 <= k < |tokens| ==> tokens[k].token != jwt) ==> !StoredTokenValid(tokens, jwt)
  {
    FindSpec(tokens, (t: Token) => t.token == jwt);
  }

  /**
   * Logging in again or refreshing revokes the user's earlier tokens: a token whose only record
   * belongs to the user stops authenticating once the user's tokens are revoked.
   */
  lemma RevokedTokensStopAuthenticating(tokens: seq<Token>, userId: int, jwt: string)
    requires forall k :: 0 <= k < |tokens| && tokens[k].token == jwt ==> tokens[k].userId == userId
    ensures !StoredTokenValid(RevokeAll(tokens, userId), jwt)
  {
    var revoked := RevokeAll(tokens, userId);
    RevokeAllAt(tokens, userId);
    FindSpec(revoked, (t: Token) => t.token == jwt);
    if FindByToken(revoked, jwt).Some? {
      var t := FindByToken(revoked, jwt).value;
      var k :| 0 <= k < |revoked| && revoked[k] == t;
      assert tokens[k].token == jwt;
    }
  }
}
