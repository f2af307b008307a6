/**
  The goauth-api repository type `DB` (`adapters/repository/db.go`): the users
  table and the Redis session cache, changed in place by registration, login,
  logout and refresh (`adapters/repository/user.go`, `auth.go`).
*/
module Repository {
  import opened Wrappers
  import opened Jwt
  import opened External
  import opened Settings
  import opened AuthDomain
  import opened AuthStore
  import opened UserQueries

  /** No two rows share an id, an email or a username. */
  ghost predicate UniqueAccounts(users: seq<User>) {
    forall i, j :: 0 <= i < j < |users| ==>
      users[i].id != users[j].id && users[i].email != users[j].email && users[i].username != users[j].username
  }

  class DB {
    /** `u.cache`: token id to session. */
    var sessions: map<string, Session>
    /** `u.db`: the users table in insertion order; while `UniqueAccounts`
        holds, every lookup matches at most one row, so the order is immaterial. */
    var users: seq<User>
    /** The settings `config.LoadConfig` reads on every call. */
    const config: Config

    ghost predicate Valid()
      reads this
    {
      UniqueAccounts(users)
    }

    /** `NewDB`, over a table and a cache that already hold data. */
    constructor (config: Config, users: seq<User>, sessions: map<string, Session>)
      requires UniqueAccounts(users)
      ensures Valid()
      ensures this.config == config && this.users == users && this.sessions == sessions
    {
      this.config := config;
      this.users := users;
      this.sessions := sessions;
    }

    /** `cache.Set(key, userID, ttl)`. */
    method CacheSet(key: string, session: Session, reply: Reply) returns (err: Option<Error>)
      modifies this`sessions
      ensures reply.Done? ==> err.None? && sessions == old(sessions)[key := session]
      ensures reply.Unavailable? ==> err == Some(CacheUnavailable) && sessions == old(sessions)
    {
      if reply.Done? {
        sessions := sessions[key := session];
        err := None;
      } else {
        err := Some(CacheUnavailable);
      }
    }

    /** `cache.Delete(key)`; deleting a missing key is no error. */
    method CacheDelete(key: string, reply: Reply) returns (err: Option<Error>)
      modifies this`sessions
      ensures reply.Done? ==> err.None? && sessions == old(sessions) - {key}
      ensures reply.Unavailable? ==> err == Some(CacheUnavailable) && sessions == old(sessions)
    {
      if reply.Done? {
        sessions := sessions - {key};
        err := None;
      } else {
        err := Some(CacheUnavailable);
      }
    }

    /** `storeTokensInCache`, as written (the compensation deletes the refresh id). */
    method StoreTokensInCache(userId: string, accessId: string, refreshId: string,
                              accessTtl: Duration, refreshTtl: Duration, replies: Replies) returns (err: Option<Error>)
      modifies this`sessions
      ensures Written(err, sessions) == WriteTokenPair(old(sessions), userId, accessId, refreshId, accessTtl, refreshTtl, replies)
    {
      err := CacheSet(accessId, Session(userId, accessTtl), replies.accessSet);
      if err.Some? {
        return;
      }
      err := CacheSet(refreshId, Session(userId, refreshTtl), replies.refreshSet);
      if err.Some? {
        var _ := CacheDelete(refreshId, replies.rollback);
        return;
      }
    }

    /** `storeTokensInCache` with the compensation its comment describes. */
    method StoreTokensInCacheWithRollback(userId: string, accessId: string, refreshId: string,
                                          accessTtl: Duration, refreshTtl: Duration, replies: Replies) returns (err: Option<Error>)
      modifies this`sessions
      ensures Written(err, sessions) == WriteTokenPairWithRollback(old(sessions), userId, accessId, refreshId, accessTtl, refreshTtl, replies)
    {
      err := CacheSet(accessId, Session(userId, accessTtl), replies.accessSet);
      if err.Some? {
        return;
      }
      err := CacheSet(refreshId, Session(userId, refreshTtl), replies.refreshSet);
      if err.Some? {
        var _ := CacheDelete(accessId, replies.rollback);
        return;
      }
    }

    /**
      `generateAndStoreTokens`: an access and a refresh token with fresh ids
      `accessId` and `refreshId`, both ids stored for the user with TTLs equal
      to the configured lifetimes, and the user's response.
    */
    method GenerateAndStoreTokens(user: User, accessId: string, refreshId: string, now: Instant, replies: Replies)
      returns (r: Result<LoginResponse, Error>)
      modifies this`sessions
      ensures var access := GenerateToken(user, config.accessSecret, config.accessTtl, accessId, now);
              var refresh := GenerateToken(user, config.refreshSecret, config.refreshTtl, refreshId, now);
              var w := WriteTokenPair(old(sessions), user.id, accessId, refreshId, config.accessTtl, config.refreshTtl, replies);
              && sessions == w.sessions
              && (w.error.Some? ==> r == Err(w.error.value))
              && (w.error.None? ==> r == Ok(LoginResponse(user.id, user.email, user.username, access.token, refresh.token)))
      // the TTL handed to the cache is the configured lifetime (it round-trips through nanoseconds)
      ensures r.Ok? && accessId != refreshId ==>
                accessId in sessions && sessions[accessId] == Session(user.id, config.accessTtl)
                && refreshId in sessions && sessions[refreshId] == Session(user.id, config.refreshTtl)
    {
      var access := GenerateToken(user, config.accessSecret, config.accessTtl, accessId, now);
      var refresh := GenerateToken(user, config.refreshSecret, config.refreshTtl, refreshId, now);
      var err := StoreTokensInCache(user.id, access.tokenId, refresh.tokenId, access.expiresIn as Duration, refresh.expiresIn as Duration, replies);
      if err.Some? {
        return Err(err.value);
      }
      r := Ok(LoginResponse(user.id, user.email, user.username, access.token, refresh.token));
    }

    /**
      `CreateUser`: refuse a taken email, then a taken username; otherwise
      insert one row with a fresh uuid `newId` and the password's hash.
      `insert` is the database's reply to the insert.
    */
    method CreateUser(email: string, username: string, password: string, newId: string, insert: Reply)
      returns (r: Result<User, Error>)
      requires Valid()
      requires !HasUser(users, newId)
      modifies this`users
      ensures Valid()
      ensures CheckExistingUser(old(users), email, username).Some? ==>
                r == Err(CheckExistingUser(old(users), email, username).value) && users == old(users)
      ensures CheckExistingUser(old(users), email, username).None? && insert.Unavailable? ==>
                r == Err(CreateFailed) && users == old(users)
      ensures CheckExistingUser(old(users), email, username).None? && insert.Done? ==>
                r == Ok(User(newId, email, username, Hashed(password))) && users == old(users) + [r.value]
    {
      var existing := CheckExistingUser(users, email, username);
      if existing.Some? {
        return Err(existing.value);
      }
      var user := User(newId, email, username, Hashed(password));
      if insert.Unavailable? {
        return Err(CreateFailed);
      }
      users := users + [user];
      r := Ok(user);
    }

    /**
      `LoginUser`: find the user by email, check the password, then issue and
      store a token pair. Both refusals leave the store as it was.
    */
    method LoginUser(email: string, password: string, accessId: string, refreshId: string, now: Instant, replies: Replies)
      returns (r: Result<LoginResponse, Error>)
      modifies this`sessions
      ensures FindUserByEmail(users, email).Err? ==> r == Err(UserNotFound) && sessions == old(sessions)
      ensures FindUserByEmail(users, email).Ok? && !Matches(FindUserByEmail(users, email).value.password, password) ==>
                r == Err(PasswordNotMatched) && sessions == old(sessions)
      ensures FindUserByEmail(users, email).Ok? && Matches(FindUserByEmail(users, email).value.password, password) ==>
                var user := FindUserByEmail(users, email).value;
                var w := WriteTokenPair(old(sessions), user.id, accessId, refreshId, config.accessTtl, config.refreshTtl, replies);
                && sessions == w.sessions
                && (r.Ok? <==> w.error.None?)
                && (w.error.Some? ==> r == Err(w.error.value))
                && (r.Ok? ==> r.value.id == user.id && r.value.email == email && r.value.username == user.username
                              && r.value.accessToken == GenerateToken(user, config.accessSecret, config.accessTtl, accessId, now).token
                              && r.value.refreshToken == GenerateToken(user, config.refreshSecret, config.refreshTtl, refreshId, now).token)
    {
      var found := FindUserByEmail(users, email);
      if found.Err? {
        return Err(found.error);
      }
      var mismatch := VerifyPassword(found.value.password, password);
      if mismatch.Some? {
        return Err(mismatch.value);
      }
      r := GenerateAndStoreTokens(found.value, accessId, refreshId, now, replies);
    }

    /**
      `LogoutUser`: the same four checks as `validateRefreshToken`, written
      out again in the source; on success only the entry under the token's id
      is deleted. Any refusal leaves the store as it was.
    */
    method LogoutUser(refreshToken: Token, parsedAt: Instant, now: Instant, delete: Reply) returns (err: Option<Error>)
      modifies this`sessions
      ensures var v := ValidateRefreshToken(refreshToken, config, old(sessions), users, parsedAt, now);
              && (v.Err? ==> err == Some(v.error) && sessions == old(sessions))
              && (v.Ok? && delete.Unavailable? ==> err == Some(CacheUnavailable) && sessions == old(sessions))
              && (v.Ok? && delete.Done? ==> err.None? && sessions == old(sessions) - {v.value.claims.registered.id})
    {
      var parsed := ParseRefreshToken(refreshToken, config, parsedAt);
      if parsed.Err? {
        return Some(parsed.error);
      }
      var claims := parsed.value;
      var owner := GetUserTokenByID(sessions, claims.registered.id);
      if owner.Err? {
        return Some(InvalidRefreshToken);
      }
      var user := GetUserByID(users, owner.value);
      if user.Err? {
        return Some(UserNotFound);
      }
      if claims.registered.expiresAt < now {
        return Some(RefreshTokenExpired);
      }
      err := CacheDelete(claims.registered.id, delete);
    }

    /**
      `RefreshTokens`: validate, delete the old id, then issue a new pair for
      the session's user. A refused token changes nothing; once the old id
      is deleted it stays deleted, even when issuing the new pair fails.
    */
    method RefreshTokens(refreshToken: Token, parsedAt: Instant, now: Instant, delete: Reply,
                         accessId: string, refreshId: string, replies: Replies)
      returns (r: Result<LoginResponse, Error>)
      modifies this`sessions
      ensures var v := ValidateRefreshToken(refreshToken, config, old(sessions), users, parsedAt, now);
              && (v.Err? ==> r == Err(v.error) && sessions == old(sessions))
              && (v.Ok? && delete.Unavailable? ==> r == Err(CacheUnavailable) && sessions == old(sessions))
              && (v.Ok? && delete.Done? ==>
                    var user := v.value.user;
                    var w := WriteTokenPair(old(sessions) - {v.value.claims.registered.id}, user.id, accessId, refreshId,
                                            config.accessTtl, config.refreshTtl, replies);
                    && sessions == w.sessions
                    && (r.Ok? <==> w.error.None?)
                    && (w.error.Some? ==> r == Err(w.error.value))
                    && (r.Ok? ==> r.value == LoginResponse(user.id, user.email, user.username,
                                                           GenerateToken(user, config.accessSecret, config.accessTtl, accessId, now).token,
                                                           GenerateToken(user, config.refreshSecret, config.refreshTtl, refreshId, now).token)))
      // with fresh ids the old refresh id is gone after the delete, whatever issuing did
      ensures var v := ValidateRefreshToken(refreshToken, config, old(sessions), users, parsedAt, now);
              v.Ok? && delete.Done? && accessId !in old(sessions) && refreshId !in old(sessions) ==>
                v.value.claims.registered.id !in sessions
    {
      var validated := ValidateRefreshToken(refreshToken, config, sessions, users, parsedAt, now);
      if validated.Err? {
        return Err(validated.error);
      }
      var err := CacheDelete(validated.value.claims.registered.id, delete);
      if err.Some? {
        return Err(err.value);
      }
      r := GenerateAndStoreTokens(validated.value.user, accessId, refreshId, now, replies);
    }
  }
}
