/**
  The gochat-api user repository (`gochat-api/internals/adapters/repository/user.go`):
  the same login and refresh flow with no session store. Tokens carry the
  numeric user id in decimal; nothing is ever revoked.
*/
module ChatRepository {
  import opened Wrappers
  import opened Jwt
  import opened Table
  import opened External
  import opened Settings

  /** `domain.User` of gochat: an auto-increment id, email, username and hash. */
  datatype User = User(id: nat, email: string, username: string, password: PasswordHash)

  /** The zero value `&domain.User{}`. */
  const ZeroUser: User := User(0, "", "", NoHash)

  /** `domain.LoginResponse` of gochat. */
  datatype LoginResponse = LoginResponse(id: nat, email: string, username: string, accessToken: Token, refreshToken: Token)

  /** `domain.Tokens`. */
  datatype Tokens = Tokens(accessToken: Token, refreshToken: Token)

  datatype Error =
    | UserNotFound          // "user not found"
    | PasswordNotMatched    // "password not matched"
    | InvalidRefreshToken   // "invalid refresh token"
    | RefreshTokenExpired   // "refresh token expired"
    | EmailTaken            // "user with this email already exists"
    | UsernameTaken         // "user with this username already exists"
    | CreateFailed          // "failed to create user: ..."

  predicate IsDigit(c: char) {
    '0' <= c <= '9'
  }

  /** `strconv.Itoa`: the decimal digits of `n`, most significant first. */
  function Decimal(n: nat): (s: string)
    ensures |s| >= 1
    ensures forall i :: 0 <= i < |s| ==> IsDigit(s[i])
  {
    var digit := ['0' + (n % 10) as char];
    if n < 10 then digit else Decimal(n / 10) + digit
  }

  /** The number a string of decimal digits denotes. */
  function DecimalValue(s: string): nat
    requires forall i :: 0 <= i < |s| ==> IsDigit(s[i])
  {
    if s == [] then 0
    else
      var last := s[|s| - 1];
      assert IsDigit(last);
      10 * DecimalValue(s[..|s| - 1]) + (last as int - '0' as int)
  }

  /** `strconv.Itoa` can be read back: the decimal form denotes the number. */
  lemma {:induction false} DecimalRoundTrip(n: nat)
    ensures DecimalValue(Decimal(n)) == n
  {
    var s := Decimal(n);
    assert s[..|s| - 1] == if n < 10 then [] else Decimal(n / 10);
    if n >= 10 {
      DecimalRoundTrip(n / 10);
    }
  }

  /** Distinct ids have distinct decimal forms, so a token's `Id` claim names one user. */
  lemma DecimalInjective(m: nat, n: nat)
    requires Decimal(m) == Decimal(n)
    ensures m == n
  {
    DecimalRoundTrip(m);
    DecimalRoundTrip(n);
  }

  /** `findUserByEmail`: the first row with the email, or "user not found". */
  function FindUserByEmail(users: seq<User>, email: string): (r: Result<User, Error>)
    ensures r.Err? <==> forall i :: 0 <= i < |users| ==> users[i].email != email
    ensures r.Err? ==> r.error == UserNotFound
    ensures r.Ok? ==> r.value in users && r.value.email == email
  {
    match FirstWhere(users, (u: User) => u.email, email)
    case None => Err(UserNotFound)
    case Some(i) => Ok(users[i])
  }

  /** `VerifyPassword`: "password not matched" exactly when bcrypt refuses. */
  function VerifyPassword(hash: PasswordHash, password: string): (r: Option<Error>)
    ensures r.None? <==> Matches(hash, password)
    ensures r.Some? ==> r.value == PasswordNotMatched
  {
    if Matches(hash, password) then None else Some(PasswordNotMatched)
  }

  /**
    `generateToken`: claims whose `Id` and issuer are both the decimal user
    id, expiring `duration` after `now` (to the second), with no `jti`,
    signed HS256 with `secret`.
  */
  function GenerateToken(user: User, secret: string, duration: Duration, now: Instant): (t: Token)
    ensures t.Compact? && t.alg == HS256
    ensures t.claims.userId == Decimal(user.id) && t.claims.registered.issuer == Decimal(user.id)
    ensures DecimalValue(t.claims.userId) == user.id
    ensures t.claims.username == user.username && t.claims.email == user.email
    ensures t.claims.registered.id == ""
    ensures now + duration - Second < t.claims.registered.expiresAt <= now + duration
    ensures forall at :: at < t.claims.registered.expiresAt ==> Parse(t, secret, at) == Ok(t.claims)
  {
    DecimalRoundTrip(user.id);
    Sign(Claims(Decimal(user.id), user.username, user.email,
                RegisteredClaims("", NumericDate(now + duration), NumericDate(now), Decimal(user.id))),
         secret)
  }

  /**
    `LoginUser`: find the user by email, check the password, and only then
    sign an access and a refresh token, each with its own secret and lifetime.
  */
  function LoginUser(users: seq<User>, config: Config, email: string, password: string, now: Instant): (r: Result<LoginResponse, Error>)
    ensures FindUserByEmail(users, email).Err? ==> r == Err(UserNotFound)
    ensures FindUserByEmail(users, email).Ok? && !Matches(FindUserByEmail(users, email).value.password, password) ==>
              r == Err(PasswordNotMatched)
    ensures FindUserByEmail(users, email).Ok? && Matches(FindUserByEmail(users, email).value.password, password) ==> r.Ok?
    ensures r.Ok? ==>
              var user := FindUserByEmail(users, email).value;
              && Matches(user.password, password)
              && r.value.id == user.id && r.value.email == email && r.value.username == user.username
              && r.value.accessToken == GenerateToken(user, config.accessSecret, config.accessTtl, now)
              && r.value.refreshToken == GenerateToken(user, config.refreshSecret, config.refreshTtl, now)
  {
    match FindUserByEmail(users, email)
    case Err(e) => Err(e)
    case Ok(user) =>
      match VerifyPassword(user.password, password)
      case Some(e) => Err(e)
      case None =>
        Ok(LoginResponse(user.id, user.email, user.username,
                         GenerateToken(user, config.accessSecret, config.accessTtl, now),
                         GenerateToken(user, config.refreshSecret, config.refreshTtl, now)))
  }

  /** `u.db.First(&user, claims.ID)`: the row whose primary key the decimal string names. */
  function FindUserById(users: seq<User>, id: string): (r: Result<User, Error>)
    ensures r.Err? <==> forall i :: 0 <= i < |users| ==> Decimal(users[i].id) != id
    ensures r.Err? ==> r.error == UserNotFound
    ensures r.Ok? ==> r.value in users && Decimal(r.value.id) == id
  {
    match FirstWhere(users, (u: User) => Decimal(u.id), id)
    case None => Err(UserNotFound)
    case Some(i) => Ok(users[i])
  }

  /**
    `RefreshTokens`: parse with the refresh secret, HMAC only (the library
    reading the clock at `parsedAt`); refuse an `ExpiresAt` before `now`;
    only then look the user up; then sign a new pair. Nothing is stored or
    deleted.
  */
  function RefreshTokens(users: seq<User>, config: Config, refreshToken: Token, parsedAt: Instant, now: Instant): (r: Result<Tokens, Error>)
    ensures Parse(refreshToken, config.refreshSecret, parsedAt).Err? ==> r == Err(InvalidRefreshToken)
    ensures Parse(refreshToken, config.refreshSecret, parsedAt).Ok? ==>
              var claims := refreshToken.claims;
              && (claims.registered.expiresAt < now ==> r == Err(RefreshTokenExpired))
              && (now <= claims.registered.expiresAt && FindUserById(users, claims.userId).Err? ==> r == Err(UserNotFound))
    ensures (&& Parse(refreshToken, config.refreshSecret, parsedAt).Ok?
             && now <= refreshToken.claims.registered.expiresAt
             && FindUserById(users, refreshToken.claims.userId).Ok?) ==> r.Ok?
    ensures r.Ok? ==>
              && Parse(refreshToken, config.refreshSecret, parsedAt).Ok?
              && now <= refreshToken.claims.registered.expiresAt
              && var user := FindUserById(users, refreshToken.claims.userId).value;
              && r.value.accessToken == GenerateToken(user, config.accessSecret, config.accessTtl, now)
              && r.value.refreshToken == GenerateToken(user, config.refreshSecret, config.refreshTtl, now)
  {
    match Parse(refreshToken, config.refreshSecret, parsedAt)
    case Err(_) => Err(InvalidRefreshToken)
    case Ok(claims) =>
      if claims.registered.expiresAt < now then Err(RefreshTokenExpired)
      else match FindUserById(users, claims.userId)
        case Err(e) => Err(e)
        case Ok(user) =>
          Ok(Tokens(GenerateToken(user, config.accessSecret, config.accessTtl, now),
                    GenerateToken(user, config.refreshSecret, config.refreshTtl, now)))
  }

  /** A refresh token resolves to the very user it was issued to, whose
      decimal id no other row shares. */
  lemma RefreshResolvesIssuer(users: seq<User>, i: nat, config: Config, issuedAt: Instant, parsedAt: Instant, now: Instant)
    requires i < |users|
    requires forall j :: 0 <= j < i ==> users[j].id != users[i].id
    requires parsedAt + Second <= issuedAt + config.refreshTtl && now + Second <= issuedAt + config.refreshTtl
    ensures var user := users[i];
            RefreshTokens(users, config, GenerateToken(user, config.refreshSecret, config.refreshTtl, issuedAt), parsedAt, now)
            == Ok(Tokens(GenerateToken(user, config.accessSecret, config.accessTtl, now),
                         GenerateToken(user, config.refreshSecret, config.refreshTtl, now)))
  {
    var user := users[i];
    var token := GenerateToken(user, config.refreshSecret, config.refreshTtl, issuedAt);
    assert Parse(token, config.refreshSecret, parsedAt).Ok?;
    var found := FindUserById(users, Decimal(user.id));
    assert found.Ok? by { assert Decimal(users[i].id) == Decimal(user.id); }
    forall j | 0 <= j < i ensures Decimal(users[j].id) != Decimal(user.id) {
      if Decimal(users[j].id) == Decimal(user.id) {
        DecimalInjective(users[j].id, user.id);
      }
    }
    var k := FirstWhere(users, (u: User) => Decimal(u.id), Decimal(user.id)).value;
    assert k == i;
  }

  /**
    No revocation: a refresh token that was accepted once is accepted again
    at any later reading of the clock before its expiry, as long as the
    users table is the same.
  */
  lemma ReplayAccepted(users: seq<User>, config: Config, refreshToken: Token, parsedAt: Instant, now: Instant,
                       laterParsedAt: Instant, later: Instant)
    requires RefreshTokens(users, config, refreshToken, parsedAt, now).Ok?
    requires laterParsedAt < refreshToken.claims.registered.expiresAt && later <= refreshToken.claims.registered.expiresAt
    ensures RefreshTokens(users, config, refreshToken, laterParsedAt, later).Ok?
  {
  }

  /** `GetUserByUsername` as written: no condition on the query, and the
      test on the rows affected inverted. */
  function GetUserByUsername(users: seq<User>, username: string): (r: Result<User, Error>)
    ensures r.Err? <==> |users| > 0
    ensures r.Err? ==> r.error == UserNotFound
    ensures r.Ok? ==> r.value == ZeroUser
  {
    if |users| != 0 then Err(UserNotFound) else Ok(ZeroUser)
  }

  /** A user who exists under the very username asked for is reported missing. */
  lemma GetUserByUsernameMissesExisting(users: seq<User>, i: nat)
    requires i < |users|
    ensures GetUserByUsername(users, users[i].username) == Err(UserNotFound)
  {
  }

  /** The lookup the name promises. */
  function FindUserByUsername(users: seq<User>, username: string): (r: Result<User, Error>)
    ensures r.Err? <==> forall j :: 0 <= j < |users| ==> users[j].username != username
    ensures r.Err? ==> r.error == UserNotFound
    ensures r.Ok? ==> r.value in users && r.value.username == username
  {
    match FirstWhere(users, (u: User) => u.username, username)
    case None => Err(UserNotFound)
    case Some(i) => Ok(users[i])
  }

  /** The gochat repository's users table; Postgres hands out ids from `nextId` on. */
  class ChatDB {
    var users: seq<User>
    var nextId: nat

    ghost predicate Valid()
      reads this
    {
      && (forall i :: 0 <= i < |users| ==> users[i].id < nextId)
      && (forall i, j :: 0 <= i < j < |users| ==>
            users[i].id != users[j].id && users[i].email != users[j].email && users[i].username != users[j].username)
    }

    constructor ()
      ensures Valid() && users == [] && nextId == 1
    {
      users := [];
      nextId := 1;
    }

    /**
      `CreateUser`: refuse a taken email, then a taken username; otherwise
      insert one row under the next id. `insert` is the database's reply;
      gorm reports a failed insert by zero rows affected.
    */
    method CreateUser(email: string, username: string, password: string, insert: Reply) returns (r: Result<User, Error>)
      requires Valid()
      modifies this
      ensures Valid()
      ensures (exists i :: 0 <= i < |old(users)| && old(users)[i].email == email) ==>
                r == Err(EmailTaken) && users == old(users) && nextId == old(nextId)
      ensures (forall i :: 0 <= i < |old(users)| ==> old(users)[i].email != email)
              && (exists i :: 0 <= i < |old(users)| && old(users)[i].username == username) ==>
                r == Err(UsernameTaken) && users == old(users) && nextId == old(nextId)
      ensures (forall i :: 0 <= i < |old(users)| ==> old(users)[i].email != email && old(users)[i].username != username)
              && insert.Unavailable? ==>
                r == Err(CreateFailed) && users == old(users) && nextId == old(nextId)
      ensures (forall i :: 0 <= i < |old(users)| ==> old(users)[i].email != email && old(users)[i].username != username)
              && insert.Done? ==>
                r == Ok(User(old(nextId), email, username, Hashed(password)))
                && users == old(users) + [r.value] && nextId == old(nextId) + 1
    {
      if FirstWhere(users, (u: User) => u.email, email).Some? {
        return Err(EmailTaken);
      }
      if FirstWhere(users, (u: User) => u.username, username).Some? {
        return Err(UsernameTaken);
      }
      if insert.Unavailable? {
        return Err(CreateFailed);
      }
      var user := User(nextId, email, username, Hashed(password));
      users := users + [user];
      nextId := nextId + 1;
      r := Ok(user);
    }
  }
}
