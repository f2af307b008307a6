/**
  The goauth-api repository's token and user lookups, and its two session
  writes (`adapters/repository/auth.go`), as functions of the Redis map and
  the users table.
*/
module AuthStore {
  import opened Wrappers
  import opened Jwt
  import opened Table
  import opened External
  import opened AuthDomain

  /** `GetUserTokenByID`: the user id stored under a token id. */
  function GetUserTokenByID(sessions: map<string, Session>, tokenId: string): (r: Result<string, Error>)
    ensures r.Ok? <==> tokenId in sessions
    ensures r.Ok? ==> r.value == sessions[tokenId].userId
    ensures r.Err? ==> r.error == SessionNotFound
  {
    if tokenId in sessions then Ok(sessions[tokenId].userId) else Err(SessionNotFound)
  }

  /** `GetUserByID`: the first row with the id; "user not found" exactly when no row has it. */
  function GetUserByID(users: seq<User>, userId: string): (r: Result<User, Error>)
    ensures r.Err? <==> !HasUser(users, userId)
    ensures r.Err? ==> r.error == UserNotFound
    ensures r.Ok? ==> r.value in users && r.value.id == userId
  {
    match FirstWhere(users, (u: User) => u.id, userId)
    case None => Err(UserNotFound)
    case Some(i) => Ok(users[i])
  }

  /**
    `GetUserByUsername` as written: the query `db.First(&user)` has no
    condition, so the argument is ignored, and the test on the rows affected
    is inverted: any row at all yields "user not found", and only an empty
    table yields a (zero-valued) user.
  */
  function GetUserByUsername(users: seq<User>, username: string): (r: Result<User, Error>)
    ensures r.Err? <==> |users| > 0
    ensures r.Err? ==> r.error == UserNotFound
    ensures r.Ok? ==> r.value == ZeroUser
  {
    if |users| != 0 then Err(UserNotFound) else Ok(ZeroUser)
  }

  /** A user who exists under the very username asked for is reported missing. */
  lemma GetUserByUsernameMissesExisting(users: seq<User>, i: nat)
    requires i < |users|
    ensures GetUserByUsername(users, users[i].username) == Err(UserNotFound)
  {
  }

  /** The lookup the name promises: the first row with the username, and
      "user not found" exactly when no row has it. */
  function FindUserByUsername(users: seq<User>, username: string): (r: Result<User, Error>)
    ensures r.Err? <==> forall j :: 0 <= j < |users| ==> users[j].username != username
    ensures r.Err? ==> r.error == UserNotFound
    ensures r.Ok? ==> r.value in users && r.value.username == username
  {
    match FirstWhere(users, (u: User) => u.username, username)
    case None => Err(UserNotFound)
    case Some(i) => Ok(users[i])
  }

  /**
    `generateToken`: claims for the user with a fresh token id, expiring
    `duration` after `now` (to the second), signed HS256 with `secret`. The
    returned details carry the same token id and the duration in nanoseconds.
  */
  function GenerateToken(user: User, secret: string, duration: Duration, tokenId: string, now: Instant): (d: TokenDetails)
    ensures d.tokenId == tokenId && d.userId == user.id && d.expiresIn == duration
    ensures d.token.Compact? && d.token.alg == HS256
    ensures d.token.claims.registered.id == d.tokenId
    ensures d.token.claims.userId == user.id && d.token.claims.registered.issuer == user.id
    ensures d.token.claims.username == user.username && d.token.claims.email == user.email
    ensures now + duration - Second < d.token.claims.registered.expiresAt <= now + duration
    ensures now - Second < d.token.claims.registered.issuedAt <= now
    ensures forall at :: at < d.token.claims.registered.expiresAt ==> Parse(d.token, secret, at) == Ok(d.token.claims)
  {
    var claims := Claims(user.id, user.username, user.email,
                         RegisteredClaims(tokenId, NumericDate(now + duration), NumericDate(now), user.id));
    TokenDetails(Sign(claims, secret), tokenId, user.id, duration)
  }

  /** The session store after the writes of `storeTokensInCache`, and the error returned. */
  datatype Written = Written(error: Option<Error>, sessions: map<string, Session>)

  /** `cache.Delete(key)`: a missing key is no error. */
  function Delete(sessions: map<string, Session>, key: string, reply: Reply): map<string, Session> {
    if reply.Done? then sessions - {key} else sessions
  }

  /**
    `storeTokensInCache` as written: set the access id, then the refresh id,
    each to the user id with its own TTL. When the second `Set` fails the
    compensating `Delete` names `refreshTokenID` (which was never written),
    so the access entry stays live, although the comment beside it says it is
    removed.
  */
  function WriteTokenPair(sessions: map<string, Session>, userId: string, accessId: string, refreshId: string,
                          accessTtl: Duration, refreshTtl: Duration, replies: Replies): (w: Written)
    ensures w.error.None? <==> replies.accessSet.Done? && replies.refreshSet.Done?
    ensures w.error.Some? ==> w.error.value == CacheUnavailable
    // on success both ids map to the user, each with its own TTL
    ensures w.error.None? ==> refreshId in w.sessions && w.sessions[refreshId] == Session(userId, refreshTtl)
    ensures w.error.None? && accessId != refreshId ==> accessId in w.sessions && w.sessions[accessId] == Session(userId, accessTtl)
    // no other key changes
    ensures forall k :: k != accessId && k != refreshId ==> (k in w.sessions <==> k in sessions)
    ensures forall k :: k in w.sessions && k != accessId && k != refreshId ==> w.sessions[k] == sessions[k]
    // a failed first write writes nothing
    ensures replies.accessSet.Unavailable? ==> w.sessions == sessions
    // a failed second write leaves the access entry in place
    ensures replies.accessSet.Done? && replies.refreshSet.Unavailable? && accessId != refreshId
            ==> accessId in w.sessions && w.sessions[accessId] == Session(userId, accessTtl)
  {
    if replies.accessSet.Unavailable? then Written(Some(CacheUnavailable), sessions)
    else
      var stored := sessions[accessId := Session(userId, accessTtl)];
      if replies.refreshSet.Unavailable? then Written(Some(CacheUnavailable), Delete(stored, refreshId, replies.rollback))
      else Written(None, stored[refreshId := Session(userId, refreshTtl)])
  }

  /** With fresh, distinct ids a failed second write leaves a live access
      session that no returned token refers to: the store has grown by one. */
  lemma FailedRefreshWriteLeaksAccessSession(sessions: map<string, Session>, userId: string,
                                                              accessId: string, refreshId: string,
                                                              accessTtl: Duration, refreshTtl: Duration, rollback: Reply)
    requires accessId != refreshId && accessId !in sessions && refreshId !in sessions
    ensures var w := WriteTokenPair(sessions, userId, accessId, refreshId, accessTtl, refreshTtl, Replies(Done, Unavailable, rollback));
            w.error == Some(CacheUnavailable) && w.sessions == sessions[accessId := Session(userId, accessTtl)]
            && |w.sessions| == |sessions| + 1
  {
    var stored := sessions[accessId := Session(userId, accessTtl)];
    assert stored - {refreshId} == stored;
  }

  /** The compensation the comment describes: on a failed second write, delete
      the access entry. */
  function WriteTokenPairWithRollback(sessions: map<string, Session>, userId: string, accessId: string, refreshId: string,
                                      accessTtl: Duration, refreshTtl: Duration, replies: Replies): (w: Written)
    ensures w.error.None? <==> replies.accessSet.Done? && replies.refreshSet.Done?
    ensures w.error.Some? ==> w.error.value == CacheUnavailable
    ensures w.error.None? ==> refreshId in w.sessions && w.sessions[refreshId] == Session(userId, refreshTtl)
    ensures w.error.None? && accessId != refreshId ==> accessId in w.sessions && w.sessions[accessId] == Session(userId, accessTtl)
    ensures forall k :: k != accessId && k != refreshId ==> (k in w.sessions <==> k in sessions)
    ensures forall k :: k in w.sessions && k != accessId && k != refreshId ==> w.sessions[k] == sessions[k]
  {
    if replies.accessSet.Unavailable? then Written(Some(CacheUnavailable), sessions)
    else
      var stored := sessions[accessId := Session(userId, accessTtl)];
      if replies.refreshSet.Unavailable? then Written(Some(CacheUnavailable), Delete(stored, accessId, replies.rollback))
      else Written(None, stored[refreshId := Session(userId, refreshTtl)])
  }

  /** With the corrected compensation no partial session survives a failed
      write: when the rollback goes through, the store is as it was. */
  lemma RollbackRestoresStore(sessions: map<string, Session>, userId: string, accessId: string, refreshId: string,
                                               accessTtl: Duration, refreshTtl: Duration, replies: Replies)
    requires accessId !in sessions
    requires replies.accessSet.Unavailable? || replies.rollback.Done?
    ensures var w := WriteTokenPairWithRollback(sessions, userId, accessId, refreshId, accessTtl, refreshTtl, replies);
            w.error.Some? ==> w.sessions == sessions
  {
    if replies.accessSet.Done? && replies.refreshSet.Unavailable? {
      var stored := sessions[accessId := Session(userId, accessTtl)];
      assert stored - {accessId} == sessions;
    }
  }

  /** Issuing with fresh, distinct ids adds exactly two sessions. */
  lemma IssueAddsTwoSessions(sessions: map<string, Session>, userId: string, accessId: string, refreshId: string,
                                              accessTtl: Duration, refreshTtl: Duration, replies: Replies)
    requires accessId != refreshId && accessId !in sessions && refreshId !in sessions
    requires replies.accessSet.Done? && replies.refreshSet.Done?
    ensures var w := WriteTokenPair(sessions, userId, accessId, refreshId, accessTtl, refreshTtl, replies);
            w.sessions.Keys == sessions.Keys + {accessId, refreshId} && |w.sessions| == |sessions| + 2
  {
    var stored := sessions[accessId := Session(userId, accessTtl)];
    assert WriteTokenPair(sessions, userId, accessId, refreshId, accessTtl, refreshTtl, replies).sessions
        == stored[refreshId := Session(userId, refreshTtl)];
  }
}
