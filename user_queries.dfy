/**
  The read-only part of the goauth-api user repository
  (`adapters/repository/user.go`): registration and login lookups, and the
  four checks a refresh token must pass.
*/
module UserQueries {
  import opened Wrappers
  import opened Jwt
  import opened Table
  import opened External
  import opened Settings
  import opened AuthDomain
  import opened AuthStore

  /** `checkExistingUser`: a taken email is reported before a taken username. */
  function CheckExistingUser(users: seq<User>, email: string, username: string): (r: Option<Error>)
    ensures r == Some(EmailTaken) <==> exists i :: 0 <= i < |users| && users[i].email == email
    ensures r == Some(UsernameTaken) <==>
              (forall i :: 0 <= i < |users| ==> users[i].email != email)
              && exists i :: 0 <= i < |users| && users[i].username == username
    ensures r.None? <==> forall i :: 0 <= i < |users| ==> users[i].email != email && users[i].username != username
  {
    if FirstWhere(users, (u: User) => u.email, email).Some? then Some(EmailTaken)
    else if FirstWhere(users, (u: User) => u.username, username).Some? then Some(UsernameTaken)
    else None
  }

  /** `findUserByEmail`: the first row with the email, or "user not found". */
  function FindUserByEmail(users: seq<User>, email: string): (r: Result<User, Error>)
    ensures r.Err? <==> forall i :: 0 <= i < |users| ==> users[i].email != email
    ensures r.Err? ==> r.error == UserNotFound
    ensures r.Ok? ==> r.value in users && r.value.email == email
  {
    match FirstWhere(users, (u: User) => u.email, email)
    case None => Err(UserNotFound)
    case Some(i) => Ok(users[i])
  }

  /** `VerifyPassword`: "password not matched" exactly when bcrypt refuses. */
  function VerifyPassword(hash: PasswordHash, password: string): (r: Option<Error>)
    ensures r.None? <==> Matches(hash, password)
    ensures r.Some? ==> r.value == PasswordNotMatched
  {
    if Matches(hash, password) then None else Some(PasswordNotMatched)
  }

  /** `parseRefreshToken`: parse with the refresh secret, HMAC only; every
      failure of the codec becomes "invalid refresh token". */
  function ParseRefreshToken(token: Token, config: Config, at: Instant): (r: Result<Claims, Error>)
    ensures r.Ok? <==> Parse(token, config.refreshSecret, at).Ok?
    ensures r.Ok? ==> r.value == Parse(token, config.refreshSecret, at).value
    ensures r.Err? ==> r.error == InvalidRefreshToken
    ensures token.Compact? && !IsHmac(token.alg) ==> r == Err(InvalidRefreshToken)
  {
    match Parse(token, config.refreshSecret, at)
    case Err(_) => Err(InvalidRefreshToken)
    case Ok(claims) => Ok(claims)
  }

  /** A refresh token that passed validation, with the user its session names. */
  datatype Validated = Validated(claims: Claims, user: User)

  /**
    `validateRefreshToken`: parse (the library reads the clock at
    `parsedAt`), find the session under the token id, find its user, and
    refuse an `ExpiresAt` before `now`; each check has its own error and runs
    only when the earlier ones passed.
  */
  function ValidateRefreshToken(token: Token, config: Config, sessions: map<string, Session>, users: seq<User>,
                                parsedAt: Instant, now: Instant): (r: Result<Validated, Error>)
    ensures Parse(token, config.refreshSecret, parsedAt).Err? ==> r == Err(InvalidRefreshToken)
    ensures Parse(token, config.refreshSecret, parsedAt).Ok? ==>
              var id := token.claims.registered.id;
              && (id !in sessions ==> r == Err(InvalidRefreshToken))
              && (id in sessions && !HasUser(users, sessions[id].userId) ==> r == Err(UserNotFound))
              && (id in sessions && HasUser(users, sessions[id].userId) && token.claims.registered.expiresAt < now
                  ==> r == Err(RefreshTokenExpired))
    ensures r.Ok? ==>
              && Parse(token, config.refreshSecret, parsedAt) == Ok(r.value.claims)
              && r.value.claims.registered.id in sessions
              && r.value.user in users
              && r.value.user.id == sessions[r.value.claims.registered.id].userId
              && now <= r.value.claims.registered.expiresAt
  {
    match ParseRefreshToken(token, config, parsedAt)
    case Err(e) => Err(e)
    case Ok(claims) =>
      match GetUserTokenByID(sessions, claims.registered.id)
      case Err(_) => Err(InvalidRefreshToken)
      case Ok(userId) =>
        match GetUserByID(users, userId)
        case Err(_) => Err(UserNotFound)
        case Ok(user) =>
          if claims.registered.expiresAt < now then Err(RefreshTokenExpired)
          else Ok(Validated(claims, user))
  }

  /** Validation succeeds exactly when all four checks pass. */
  lemma ValidatedIffAllChecksPass(token: Token, config: Config, sessions: map<string, Session>, users: seq<User>,
                                  parsedAt: Instant, now: Instant)
    ensures ValidateRefreshToken(token, config, sessions, users, parsedAt, now).Ok? <==>
              && Parse(token, config.refreshSecret, parsedAt).Ok?
              && token.claims.registered.id in sessions
              && HasUser(users, sessions[token.claims.registered.id].userId)
              && now <= token.claims.registered.expiresAt
  {
  }

  /** Once its session is deleted a refresh token is refused with "invalid
      refresh token", whatever else holds (revocation by deletion). */
  lemma RevokedRefreshTokenRefused(token: Token, config: Config, sessions: map<string, Session>, users: seq<User>,
                                   parsedAt: Instant, now: Instant)
    requires token.Compact? && token.claims.registered.id !in sessions
    ensures ValidateRefreshToken(token, config, sessions, users, parsedAt, now) == Err(InvalidRefreshToken)
  {
  }

  /** A token signed with any other secret than the refresh secret (the access
      secret, say) is refused, whatever the store holds. */
  lemma ForeignTokenRefused(claims: Claims, key: string, config: Config, sessions: map<string, Session>, users: seq<User>,
                            parsedAt: Instant, now: Instant)
    requires key != config.refreshSecret
    ensures ValidateRefreshToken(Sign(claims, key), config, sessions, users, parsedAt, now) == Err(InvalidRefreshToken)
  {
    ForeignKeyRejected(claims, key, config.refreshSecret, parsedAt);
  }

  /**
    Issue then validate: a refresh token from `generateToken` whose session
    maps to its user is accepted, before its expiry, with that user.
  */
  lemma IssuedRefreshTokenValidates(user: User, config: Config, tokenId: string, issuedAt: Instant,
                                                      sessions: map<string, Session>, users: seq<User>,
                                                      parsedAt: Instant, now: Instant)
    requires tokenId in sessions && sessions[tokenId].userId == user.id
    requires GetUserByID(users, user.id) == Ok(user)
    requires parsedAt + Second <= issuedAt + config.refreshTtl && now + Second <= issuedAt + config.refreshTtl
    ensures var d := GenerateToken(user, config.refreshSecret, config.refreshTtl, tokenId, issuedAt);
            ValidateRefreshToken(d.token, config, sessions, users, parsedAt, now) == Ok(Validated(d.token.claims, user))
  {
    var d := GenerateToken(user, config.refreshSecret, config.refreshTtl, tokenId, issuedAt);
    assert Parse(d.token, config.refreshSecret, parsedAt) == Ok(d.token.claims);
  }
}
