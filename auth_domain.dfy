/** The goauth-api domain types (`domain/user.go`, `domain/token.go`) and the
    errors its repository returns. */
module AuthDomain {
  import opened Jwt
  import opened External

  /** `domain.User`: the uuid primary key in its string form, email, username
      and bcrypt hash. Timestamps are not modelled. */
  datatype User = User(id: string, email: string, username: string, password: PasswordHash)

  /** The zero value `&domain.User{}` (the nil uuid, empty strings). */
  const ZeroUser: User := User("00000000-0000-0000-0000-000000000000", "", "", NoHash)

  /** A Redis entry: the key is a token id, the value the owning user id,
      stored with a time-to-live. */
  datatype Session = Session(userId: string, ttl: Duration)

  /** `domain.TokenDetails`; `expiresIn` holds `duration.Nanoseconds()`. */
  datatype TokenDetails = TokenDetails(token: Token, tokenId: string, userId: string, expiresIn: int)

  /** `domain.LoginResponse`: the user's id, email, username and both token strings. */
  datatype LoginResponse = LoginResponse(id: string, email: string, username: string, accessToken: Token, refreshToken: Token)

  /** The errors the repository returns, one per message. */
  datatype Error =
    | UserNotFound          // "user not found"
    | PasswordNotMatched    // "password not matched"
    | InvalidRefreshToken   // "invalid refresh token"
    | RefreshTokenExpired   // "refresh token expired"
    | EmailTaken            // "user with this email already exists"
    | UsernameTaken         // "user with this username already exists"
    | CreateFailed          // "failed to create user: ..."
    | SessionNotFound       // the Redis client's error for a missing key
    | CacheUnavailable      // the Redis client's error for a failed write

  /** The Redis server's replies to the writes of `storeTokensInCache`: the
      access `Set`, the refresh `Set` and the compensating `Delete`. */
  datatype Replies = Replies(accessSet: Reply, refreshSet: Reply, rollback: Reply)

  /** Some row has the id. */
  predicate HasUser(users: seq<User>, id: string) {
    exists i :: 0 <= i < |users| && users[i].id == id
  }
}
