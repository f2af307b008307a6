/**
  The goauth-api access-token middleware (`adapters/handler/auth.go`) as a
  decision on the request's `access_token` cookie, the session store and the
  users table. It reads both and writes neither.
*/
module AuthHandler {
  import opened Wrappers
  import opened Jwt
  import opened Settings
  import opened AuthDomain
  import opened AuthStore

  /** Why a request is refused with 403 Forbidden. */
  datatype Denial =
    | BadToken(cause: ParseError)   // the parser's own message
    | SessionInvalid                // "Token is invalid or session has expired"
    | UserGone                      // "the user belonging to this token no logger exists"

  /** The middleware's decision: 401, 403 with a reason, or on to the next handler. */
  datatype Decision = Unauthorized | Forbidden(reason: Denial) | Proceed

  /**
    `Middleware`: an empty cookie is 401; then parse with the access secret
    (HMAC only, the library reading the clock at `at`), find the session
    under the token id, and find its user, each failure a 403. Parsing
    without error sets `token.Valid`, so the final "Invalid access token"
    branch of the source is never reached and has no counterpart here.
  */
  function Middleware(cookie: Token, config: Config, sessions: map<string, Session>, users: seq<User>, at: Instant): (d: Decision)
    ensures d == Unauthorized <==> cookie == Empty
    ensures cookie != Empty && Parse(cookie, config.accessSecret, at).Err? ==>
              d == Forbidden(BadToken(Parse(cookie, config.accessSecret, at).error))
    ensures cookie != Empty && Parse(cookie, config.accessSecret, at).Ok? ==>
              var id := cookie.claims.registered.id;
              && (id !in sessions ==> d == Forbidden(SessionInvalid))
              && (id in sessions && !HasUser(users, sessions[id].userId) ==> d == Forbidden(UserGone))
    ensures d == Proceed <==>
              && cookie != Empty
              && Parse(cookie, config.accessSecret, at).Ok?
              && cookie.claims.registered.id in sessions
              && HasUser(users, sessions[cookie.claims.registered.id].userId)
  {
    if cookie == Empty then Unauthorized
    else match Parse(cookie, config.accessSecret, at)
      case Err(e) => Forbidden(BadToken(e))
      case Ok(claims) =>
        match GetUserTokenByID(sessions, claims.registered.id)
        case Err(_) => Forbidden(SessionInvalid)
        case Ok(userId) =>
          match GetUserByID(users, userId)
          case Err(_) => Forbidden(UserGone)
          case Ok(_) => Proceed
  }

  /** A token under any algorithm but HMAC is refused with 403 before the store is read. */
  lemma NonHmacForbidden(cookie: Token, config: Config, sessions: map<string, Session>, users: seq<User>, at: Instant)
    requires cookie.Compact? && !IsHmac(cookie.alg)
    ensures Middleware(cookie, config, sessions, users, at).Forbidden?
    ensures Middleware(cookie, config, sessions, users, at) == Middleware(cookie, config, map[], [], at)
  {
  }

  /** Parsing uses the access secret: a refresh token (signed with a different
      secret) never gets past the middleware. */
  lemma RefreshTokenForbidden(user: User, config: Config, tokenId: string, issuedAt: Instant,
                              sessions: map<string, Session>, users: seq<User>, at: Instant)
    requires config.accessSecret != config.refreshSecret
    ensures var refresh := GenerateToken(user, config.refreshSecret, config.refreshTtl, tokenId, issuedAt).token;
            Middleware(refresh, config, sessions, users, at) == Forbidden(BadToken(SignatureInvalid))
  {
    var refresh := GenerateToken(user, config.refreshSecret, config.refreshTtl, tokenId, issuedAt).token;
    ForeignKeyRejected(refresh.claims, config.refreshSecret, config.accessSecret, at);
  }

  /** Issue then use: an access token whose session maps to an existing user
      proceeds before its expiry. */
  lemma IssuedAccessTokenProceeds(user: User, config: Config, tokenId: string, issuedAt: Instant,
                                                    sessions: map<string, Session>, users: seq<User>, at: Instant)
    requires tokenId in sessions && sessions[tokenId].userId == user.id
    requires HasUser(users, user.id)
    requires at + Second <= issuedAt + config.accessTtl
    ensures Middleware(GenerateToken(user, config.accessSecret, config.accessTtl, tokenId, issuedAt).token,
                       config, sessions, users, at) == Proceed
  {
    var access := GenerateToken(user, config.accessSecret, config.accessTtl, tokenId, issuedAt).token;
    assert Parse(access, config.accessSecret, at).Ok?;
  }

  /**
    Deleting another token's session does not change the decision. Logout
    and refresh delete only the refresh token's entry, so the access token
    issued beside it keeps passing the middleware until its entry expires.
  */
  lemma OtherRevocationIgnored(cookie: Token, config: Config, sessions: map<string, Session>, users: seq<User>,
                               at: Instant, revoked: string)
    requires cookie.Compact? && cookie.claims.registered.id != revoked
    ensures Middleware(cookie, config, sessions - {revoked}, users, at) == Middleware(cookie, config, sessions, users, at)
  {
  }

  /** A session whose entry is gone (deleted or expired in Redis) is refused,
      however far the token's own expiry lies. */
  lemma MissingSessionForbidden(cookie: Token, config: Config, sessions: map<string, Session>, users: seq<User>, at: Instant)
    requires Parse(cookie, config.accessSecret, at).Ok?
    requires cookie.claims.registered.id !in sessions
    ensures Middleware(cookie, config, sessions, users, at) == Forbidden(SessionInvalid)
  {
  }
}
