/**
  The session lifecycle end to end: login, use, rotation and logout against
  one goauth-api repository, and the two services set side by side.
*/
module Lifecycle {
  import opened Wrappers
  import opened Jwt
  import opened External
  import opened Settings
  import opened AuthDomain
  import opened AuthStore
  import opened UserQueries
  import opened Repository
  import opened AuthHandler
  import ChatRepository

  /**
    The two services check an expired refresh token of a deleted user in
    different orders: goauth-api looks the user up before the explicit
    expiry check and reports "user not found"; gochat-api checks expiry first
    and reports "refresh token expired". (The library has already accepted
    the token at `parsedAt`, before its expiry.)
  */
  lemma CheckOrderDiffers(config: Config, claims: Claims, sessions: map<string, Session>,
                          users: seq<User>, chatUsers: seq<ChatRepository.User>, parsedAt: Instant, now: Instant)
    requires parsedAt < claims.registered.expiresAt < now
    requires claims.registered.id in sessions && !HasUser(users, sessions[claims.registered.id].userId)
    ensures ValidateRefreshToken(Sign(claims, config.refreshSecret), config, sessions, users, parsedAt, now) == Err(UserNotFound)
    ensures ChatRepository.RefreshTokens(chatUsers, config, Sign(claims, config.refreshSecret), parsedAt, now)
            == Err(ChatRepository.RefreshTokenExpired)
  {
  }

  /**
    One user logs in, uses the access token, rotates the pair and logs out.
    After rotation the old refresh token is refused; after logout the new
    one is; the access token issued with it still passes the middleware,
    because only refresh entries are deleted.
  */
  method LoginRotateLogout(config: Config, user: User, password: string, now: Instant)
    requires user.password == Hashed(password)
    requires config.accessTtl >= 2 * Second && config.refreshTtl >= 2 * Second
  {
    var db := new DB(config, [user], map[]);
    var login := Login(db, user, password, now);
    var rotated := Rotate(db, user, login, now);
    Logout(db, user, rotated, now);
  }

  method Login(db: DB, user: User, password: string, now: Instant) returns (login: LoginResponse)
    requires db.users == [user] && db.sessions == map[] && user.password == Hashed(password)
    requires db.config.accessTtl >= 2 * Second && db.config.refreshTtl >= 2 * Second
    modifies db
    ensures db.users == [user]
    ensures db.sessions == map["access-1" := Session(user.id, db.config.accessTtl), "refresh-1" := Session(user.id, db.config.refreshTtl)]
    ensures login.refreshToken == GenerateToken(user, db.config.refreshSecret, db.config.refreshTtl, "refresh-1", now).token
    ensures Middleware(login.accessToken, db.config, db.sessions, db.users, now) == Proceed
  {
    assert FindUserByEmail([user], user.email) == Ok(user);
    var r := db.LoginUser(user.email, password, "access-1", "refresh-1", now, Replies(Done, Done, Done));
    login := r.value;
    assert HasUser(db.users, user.id) by { assert db.users[0].id == user.id; }
    IssuedAccessTokenProceeds(user, db.config, "access-1", now, db.sessions, db.users, now);
  }

  method Rotate(db: DB, user: User, login: LoginResponse, now: Instant) returns (rotated: LoginResponse)
    requires db.users == [user]
    requires db.sessions == map["access-1" := Session(user.id, db.config.accessTtl), "refresh-1" := Session(user.id, db.config.refreshTtl)]
    requires login.refreshToken == GenerateToken(user, db.config.refreshSecret, db.config.refreshTtl, "refresh-1", now).token
    requires db.config.accessTtl >= 2 * Second && db.config.refreshTtl >= 2 * Second
    modifies db
    ensures db.users == [user]
    ensures "refresh-2" in db.sessions && db.sessions["refresh-2"] == Session(user.id, db.config.refreshTtl)
    ensures "access-2" in db.sessions && db.sessions["access-2"] == Session(user.id, db.config.accessTtl)
    ensures rotated.refreshToken == GenerateToken(user, db.config.refreshSecret, db.config.refreshTtl, "refresh-2", now).token
    ensures rotated.accessToken == GenerateToken(user, db.config.accessSecret, db.config.accessTtl, "access-2", now).token
    ensures ValidateRefreshToken(login.refreshToken, db.config, db.sessions, db.users, now, now) == Err(InvalidRefreshToken)
  {
    assert GetUserByID(db.users, user.id) == Ok(user);
    IssuedRefreshTokenValidates(user, db.config, "refresh-1", now, db.sessions, db.users, now, now);
    var r := db.RefreshTokens(login.refreshToken, now, now, Done, "access-2", "refresh-2", Replies(Done, Done, Done));
    rotated := r.value;
    RevokedRefreshTokenRefused(login.refreshToken, db.config, db.sessions, db.users, now, now);
  }

  method Logout(db: DB, user: User, rotated: LoginResponse, now: Instant)
    requires db.users == [user]
    requires "refresh-2" in db.sessions && db.sessions["refresh-2"] == Session(user.id, db.config.refreshTtl)
    requires "access-2" in db.sessions && db.sessions["access-2"] == Session(user.id, db.config.accessTtl)
    requires rotated.refreshToken == GenerateToken(user, db.config.refreshSecret, db.config.refreshTtl, "refresh-2", now).token
    requires rotated.accessToken == GenerateToken(user, db.config.accessSecret, db.config.accessTtl, "access-2", now).token
    requires db.config.accessTtl >= 2 * Second && db.config.refreshTtl >= 2 * Second
    modifies db
    ensures db.sessions == old(db.sessions) - {"refresh-2"}
    ensures ValidateRefreshToken(rotated.refreshToken, db.config, db.sessions, db.users, now, now) == Err(InvalidRefreshToken)
    ensures Middleware(rotated.accessToken, db.config, db.sessions, db.users, now) == Proceed
  {
    assert GetUserByID(db.users, user.id) == Ok(user);
    IssuedRefreshTokenValidates(user, db.config, "refresh-2", now, db.sessions, db.users, now, now);
    var err := db.LogoutUser(rotated.refreshToken, now, now, Done);
    assert err.None?;
    RevokedRefreshTokenRefused(rotated.refreshToken, db.config, db.sessions, db.users, now, now);
    assert ValidateRefreshToken(rotated.refreshToken, db.config, db.sessions, db.users, now, now) == Err(InvalidRefreshToken);
    assert HasUser(db.users, user.id) by { assert db.users[0].id == user.id; }
    IssuedAccessTokenProceeds(user, db.config, "access-2", now, db.sessions, db.users, now);
    assert Middleware(rotated.accessToken, db.config, db.sessions, db.users, now) == Proceed;
  }
}
