# Session and token lifecycle of go-auth, in Dafny

This project models the core of two Go services: goauth-api and its stateless sibling gochat-api. The core is how they issue, validate, rotate and revoke JSON Web Tokens.

goauth-api keeps two stores:

- a Redis **session store**, mapping a token id (`jti`) to the owning user's id, each entry with its own time-to-live;
- a Postgres **users table**.

It drives them through five operations:

- **Login** issues an access token and a refresh token with fresh ids and writes both ids to Redis.
- **Validate** runs parse, session lookup, user lookup and expiry check, in that order.
- The access-token **middleware** runs the same chain with the access secret.
- **Refresh** validates, deletes the old id, then issues a new pair.
- **Logout** validates, then deletes.

gochat-api signs the same kind of tokens but stores no sessions, so nothing it issues can be revoked. It also checks expiry before the user lookup.

How the pieces are modelled:

- **Token codec** (`jwt.dfy`). A token string is represented by what golang-jwt can read from it: `Compact(alg, claims, signature)` or `Malformed(text)`. The empty cookie is `Malformed("")`. A signature is `Mac(alg, key, claims)`, an idealised HMAC (section 3.2 of RFC 7518) that verifies only under the key that made it. `Parse` follows the library's order: decode, look up the algorithm, run the services' key function (HMAC only), verify the signature, then validate `exp` (section 4.1.4 of RFC 7519). Claims carry `jti`, `exp`, `iat` and `iss` (sections 4.1.7, 4.1.4, 4.1.6 and 4.1.1). NumericDates are truncated to whole seconds, as `jwt.NewNumericDate` does.
- **Time** is passed in as parameters. `time.Now()` is read by the library during parsing and again by the explicit `ExpiresAt.Before(time.Now())` check, so validating functions take two readings, `parsedAt` and `now`.
- **Fresh ids.** `uuid.New()` becomes an id parameter; freshness appears as a hypothesis wherever a property needs it.
- **Server replies.** Each Redis write and each database insert takes the server's reply (`Done` or `Unavailable`) as a parameter, so every failure path is modelled.
- **Mutable state.** The repository type `DB` is a class whose fields `sessions` (a map) and `users` (a sequence in insertion order, which does not matter while no two rows share an id, email or username) are changed by its methods. Each method's `ensures` states the new state. Read-only queries and the middleware are functions of those two values.
- **Compensation.** `storeTokensInCache` is also given as a pure function, `WriteTokenPair`, so that lemmas can be stated about it.

Where the intended design and the code disagree, the model follows the code:

- The compensating delete in `storeTokensInCache` removes the refresh id, not the access id (see Findings).
- Logout and refresh delete only the refresh token's entry. The access token issued beside it keeps passing the middleware until Redis expires its entry (`AuthHandler.OtherRevocationIgnored`, `Lifecycle.Logout`).
- The codec does check expiry itself. The explicit expiry checks can fire only because the clock is read again afterwards.

## Model

| member | source | states |
|---|---|---|
| `Jwt.NumericDate` | goauth-api/internals/adapters/repository/auth.go:42-43 | a NumericDate is the instant truncated to a whole second: at most the instant and less than one second before it |
| `Jwt.Sign` | goauth-api/internals/adapters/repository/auth.go:48-49 | an HS256 token; parsing it with the same key gives back exactly its claims until `exp`, and `TokenExpired` from then on |
| `Jwt.Parse` | goauth-api/internals/adapters/repository/user.go:120-135 | accepts exactly the HMAC tokens signed with the key that are not yet expired, and returns their claims; every non-HMAC algorithm is refused before the key is used |
| `Jwt.ForeignKeyRejected` | goauth-api/internals/adapters/repository/user.go:120-127 | a token signed with one secret is refused under any other with `SignatureInvalid` |
| `Table.FirstWhere` | goauth-api/internals/adapters/repository/user.go:99-105 | gorm's `First` with a condition: the first row in sequence order whose column holds the value; none exactly when no row does |
| `AuthStore.GetUserTokenByID` | goauth-api/internals/adapters/repository/auth.go:12-20 | succeeds exactly when the token id is stored, with the stored user id; otherwise the cache's not-found error |
| `AuthStore.GetUserByID` | goauth-api/internals/adapters/repository/auth.go:80-87 | "user not found" exactly when no row has the id; otherwise a row of the table with that id |
| `AuthStore.GetUserByUsername` | goauth-api/internals/adapters/repository/auth.go:22-30 | as written: "user not found" exactly when the table has any row, whatever the username; the zero user when it is empty |
| `AuthStore.GetUserByUsernameMissesExisting` | goauth-api/internals/adapters/repository/auth.go:22-30 | a user who exists under the very username asked for is reported as not found |
| `AuthStore.FindUserByUsername` | goauth-api/internals/adapters/repository/auth.go:22-30 | corrected lookup: "user not found" exactly when no row has the username; otherwise a row with it |
| `AuthStore.GenerateToken` | goauth-api/internals/adapters/repository/auth.go:32-62 | claims with user id and issuer equal to the user's id, username and email copied, `jti` equal to the returned token id, `exp` within the second before now + duration, `iat` within the second before now; details carry the duration in nanoseconds; the token parses under its secret until `exp` |
| `AuthStore.WriteTokenPair` | goauth-api/internals/adapters/repository/auth.go:64-78 | success exactly when both `Set`s succeed, with both ids mapped to the user under their own TTLs; no other key changes; a failed first `Set` writes nothing; a failed second `Set` leaves the access entry live |
| `AuthStore.FailedRefreshWriteLeaksAccessSession` | goauth-api/internals/adapters/repository/auth.go:70-75 | with fresh ids, a failed second `Set` returns the error and leaves the store one entry larger: the access id maps to the user |
| `AuthStore.WriteTokenPairWithRollback` | goauth-api/internals/adapters/repository/auth.go:70-75 | the compensation the comment describes: same success contract and same frame as the code |
| `AuthStore.RollbackRestoresStore` | goauth-api/internals/adapters/repository/auth.go:70-75 | with the corrected compensation, a failed write leaves the store exactly as it was once the rollback goes through |
| `AuthStore.IssueAddsTwoSessions` | goauth-api/internals/adapters/repository/auth.go:64-78 | with fresh, distinct ids a successful write adds exactly the two ids: the key set grows by those two and the size by two |
| `UserQueries.CheckExistingUser` | goauth-api/internals/adapters/repository/user.go:88-97 | a taken email is reported whenever some row has it; a taken username only when no row has the email; none exactly when neither is taken |
| `UserQueries.FindUserByEmail` | goauth-api/internals/adapters/repository/user.go:99-105 | "user not found" exactly when no row has the email; otherwise a row with it |
| `UserQueries.VerifyPassword` | goauth-api/internals/adapters/repository/user.go:107-112 | no error exactly when bcrypt accepts the password; otherwise "password not matched" |
| `UserQueries.ParseRefreshToken` | goauth-api/internals/adapters/repository/user.go:114-136 | succeeds exactly when the codec accepts the token under the refresh secret, with its claims; every failure (non-HMAC included) is "invalid refresh token" |
| `UserQueries.ValidateRefreshToken` | goauth-api/internals/adapters/repository/user.go:138-159 | checks in order parse, session, user, expiry: a parse failure or missing session is "invalid refresh token", a missing user "user not found", `exp` before now "refresh token expired"; success returns the parsed claims and the session's user |
| `UserQueries.ValidatedIffAllChecksPass` | goauth-api/internals/adapters/repository/user.go:138-159 | validation succeeds if and only if all four checks pass |
| `UserQueries.RevokedRefreshTokenRefused` | goauth-api/internals/adapters/repository/user.go:144-147 | a refresh token whose id is not in the store is refused with "invalid refresh token", whatever else holds |
| `UserQueries.ForeignTokenRefused` | goauth-api/internals/adapters/repository/user.go:120-127 | a token signed with any secret but the refresh secret is refused, whatever the stores hold |
| `UserQueries.IssuedRefreshTokenValidates` | goauth-api/internals/adapters/repository/user.go:138-159 | a refresh token from `generateToken`, whose session maps to its user, validates to that user and its claims before expiry |
| `Repository.DB.constructor` | goauth-api/internals/adapters/repository/db.go:13-18 | the repository over a given table, cache and settings; the table must already hold no two rows with one id, email or username, which the schema does not enforce and only `CreateUser` run one call at a time keeps |
| `Repository.DB.CacheSet` | goauth-api/internals/adapters/repository/auth.go:65-68 | a taken write maps the key to the session; an unavailable server changes nothing and returns its error |
| `Repository.DB.CacheDelete` | goauth-api/internals/adapters/repository/user.go:68-70 | a taken delete removes the key (a missing key is no error); an unavailable server changes nothing |
| `Repository.DB.StoreTokensInCache` | goauth-api/internals/adapters/repository/auth.go:64-78 | the error and the new store are those of `WriteTokenPair` on the old store |
| `Repository.DB.StoreTokensInCacheWithRollback` | goauth-api/internals/adapters/repository/auth.go:70-75 | the error and the new store are those of `WriteTokenPairWithRollback` |
| `Repository.DB.GenerateAndStoreTokens` | goauth-api/internals/adapters/repository/user.go:161-188 | the store after the two writes of both generated ids; on success the user's id, email, username and both token strings; each TTL equals its configured lifetime |
| `Repository.DB.CreateUser` | goauth-api/internals/adapters/repository/user.go:14-34 | email refusal first, then username; on success exactly one row with the given email, username and hashed password is appended; uniqueness of ids, emails and usernames is preserved |
| `Repository.DB.LoginUser` | goauth-api/internals/adapters/repository/user.go:36-47 | unknown email is "user not found" and a wrong password "password not matched", both with the store unchanged; otherwise the pair is written, a failed write returns the cache's error, and a successful one a response carrying the user's data and both tokens |
| `Repository.DB.LogoutUser` | goauth-api/internals/adapters/repository/user.go:49-73 | the four checks of `validateRefreshToken` with its errors; on success only the token's own entry is deleted; any failure leaves the store unchanged |
| `Repository.DB.RefreshTokens` | goauth-api/internals/adapters/repository/user.go:75-86 | a refused token changes nothing; otherwise the old id is deleted and a new pair is written for the session's user, a failed write returning the cache's error; with fresh ids the old id is gone even when issuing fails |
| `AuthHandler.Middleware` | goauth-api/internals/adapters/handler/auth.go:23-69 | an empty cookie is 401; a parse failure under the access secret, a missing session or a missing user is 403, in that order; it proceeds if and only if all checks pass |
| `AuthHandler.NonHmacForbidden` | goauth-api/internals/adapters/handler/auth.go:34-48 | a non-HMAC token is refused with 403 without reading either store |
| `AuthHandler.RefreshTokenForbidden` | goauth-api/internals/adapters/handler/auth.go:34-48 | parsing uses the access secret: a refresh token is refused with 403 when the secrets differ |
| `AuthHandler.IssuedAccessTokenProceeds` | goauth-api/internals/adapters/handler/auth.go:23-69 | an access token from `generateToken` whose session maps to an existing user proceeds before its expiry |
| `AuthHandler.OtherRevocationIgnored` | goauth-api/internals/adapters/handler/auth.go:51-54 | deleting another token's entry (as logout and refresh do) does not change the decision about this token |
| `AuthHandler.MissingSessionForbidden` | goauth-api/internals/adapters/handler/auth.go:51-54 | a token whose entry is gone is refused with "Token is invalid or session has expired", however far off its own expiry is |
| `ChatRepository.Decimal` | gochat-api/internals/adapters/repository/user.go:101 | `strconv.Itoa` gives a non-empty string of decimal digits |
| `ChatRepository.DecimalRoundTrip` | gochat-api/internals/adapters/repository/user.go:101 | the decimal form reads back as the number |
| `ChatRepository.DecimalInjective` | gochat-api/internals/adapters/repository/user.go:101 | distinct ids have distinct decimal forms |
| `ChatRepository.FindUserByEmail` | gochat-api/internals/adapters/repository/user.go:16-23 | "user not found" exactly when no row has the email; otherwise a row with it |
| `ChatRepository.VerifyPassword` | gochat-api/internals/adapters/repository/user.go:25-31 | no error exactly when bcrypt accepts the password |
| `ChatRepository.GenerateToken` | gochat-api/internals/adapters/repository/user.go:97-113 | HS256 token whose `Id` and issuer are both the decimal user id, no `jti`, `exp` within the second before now + duration; it parses under its secret until `exp` |
| `ChatRepository.LoginUser` | gochat-api/internals/adapters/repository/user.go:33-65 | "user not found", then "password not matched", before any token is made; a found user whose password matches always gets a pair, the access token is signed with the access secret and lifetime and the refresh token with the refresh ones |
| `ChatRepository.FindUserById` | gochat-api/internals/adapters/repository/user.go:141-145 | "user not found" exactly when no row's decimal id equals the claim |
| `ChatRepository.RefreshTokens` | gochat-api/internals/adapters/repository/user.go:115-160 | parse failure is "invalid refresh token", then `exp` before now is "refresh token expired", then a missing user "user not found"; a token passing all three checks always gets a pair, and success gives a new access token (access secret and lifetime) and refresh token (refresh secret and lifetime) for the token's user |
| `ChatRepository.RefreshResolvesIssuer` | gochat-api/internals/adapters/repository/user.go:141-145 | a refresh token issued to a row resolves back to that very row and yields its new pair |
| `ChatRepository.ReplayAccepted` | gochat-api/internals/adapters/repository/user.go:115-160 | no revocation: a refresh token accepted once is accepted again at any later time before its expiry |
| `ChatRepository.GetUserByUsername` | gochat-api/internals/adapters/repository/user.go:162-170 | as written: "user not found" exactly when the table has any row; the zero user when it is empty |
| `ChatRepository.GetUserByUsernameMissesExisting` | gochat-api/internals/adapters/repository/user.go:162-170 | a user who exists under the username asked for is reported as not found |
| `ChatRepository.FindUserByUsername` | gochat-api/internals/adapters/repository/user.go:162-170 | corrected lookup: "user not found" exactly when no row has the username |
| `ChatRepository.ChatDB.CreateUser` | gochat-api/internals/adapters/repository/user.go:67-95 | email refusal, then username refusal, then "failed to create user" when the insert fails, each leaving the table and the next id unchanged; otherwise exactly one row under the next id is appended and the next id advances by one; uniqueness is preserved |
| `Lifecycle.CheckOrderDiffers` | gochat-api/internals/adapters/repository/user.go:137-145 | for a refresh token of a deleted user that the library accepts at parse time (`parsedAt < exp`) but whose `exp` passes before the explicit expiry check (`exp < now`), goauth-api reports "user not found" while gochat-api reports "refresh token expired" |
| `Lifecycle.Login` | goauth-api/internals/adapters/repository/user.go:36-47 | a login leaves exactly the two new entries, and its access token passes the middleware |
| `Lifecycle.Rotate` | goauth-api/internals/adapters/repository/user.go:75-86 | after rotation both new ids map to the user and the old refresh token is refused |
| `Lifecycle.Logout` | goauth-api/internals/adapters/repository/user.go:49-73 | a logout deletes exactly the refresh token's entry; that refresh token is then refused while the access token issued beside it still passes the middleware |

## Left out

- ChatRepository.ChatDB.CreateUser: a failed insert leaves `nextId` unchanged; a Postgres sequence may already have spent a value on it, which the model does not capture.
- HTTP and Fiber plumbing: body parsing, JSON envelopes, cookies and their `MaxAge` (goauth-api/internals/adapters/handler/user.go, gochat-api/internals/adapters/handler/user.go).
- The Middleware's 401 and 403 responses are a `Decision` value. The JSON message of a parse failure is the parser's error kind, not its text.
- The Middleware's final `!token.Valid` branch is omitted. `ParseWithClaims` sets `Valid` whenever it returns no error, so that branch cannot be reached.
- `config.LoadConfig` is not modelled. Secrets and lifetimes are a `Config` parameter. Its failure (a missing `.env`, an unparsable duration) is an environment error, and every operation's branch for it is left out.
- The error branch of `SignedString` is not modelled. HMAC signing with a byte-slice key does not fail.
- bcrypt is abstract: `Hashed(p)` stands for a hash of `p`, and `Matches` for a successful comparison. `GenerateFromPassword`'s own failure ("password not hashed") is not modelled.
- Redis reads only ever report a missing key. Network errors on `Get`, value serialisation and the server's passive TTL expiry are not modelled. An expired entry is simply absent, and the TTL is recorded as stored.
- Postgres queries fail only by finding no row. Uuid text casting, soft deletes and timestamps are not modelled.
- gochat-api's `First(&user, claims.ID)` is read as a primary-key lookup of the decimal string.
- Integer widths: `time.Duration` is `int64` nanoseconds, and the model uses unbounded integers without overflow. gochat-api's `int(user.ID)` conversion is taken as exact.
- `generateToken` reads the clock twice (for `exp` and `iat`), the two `generateToken` calls of one login or refresh each read it again, and the explicit `ExpiresAt.Before(time.Now())` checks of `validateRefreshToken`, `LogoutUser` and gochat's `RefreshTokens` read it once more before them. The model gives all of these readings of one operation the same `now` (only the library's own expiry check inside parsing reads a separate `parsedAt`).
- Every modelled claim set has an `exp`. A token without one (which would make the explicit expiry check dereference nil) cannot be signed without the secret.
- Concurrency: two refreshes racing on one refresh token, and non-atomic writes seen by other requests, are not modelled. Each call runs alone. The schema (`AutoMigrate(&domain.User{})`, no unique index) does not enforce unique emails or usernames; two registrations racing past `checkExistingUser` could break the uniqueness the model keeps as an invariant.
- gochat-api's middleware (`handler/middleware/auth.go`) is not part of this model. It is a stateless wrapper around the same parser.
- The services and ports layers are not part of this model. They pass calls straight through.
- Book CRUD and `cmd/main.go` wiring are not part of this model.
- `Repository.DB.StoreTokensInCacheWithRollback`: no caller uses it. `GenerateAndStoreTokens` keeps the as-written compensation, because that is what the code runs.

## Findings

| source | as written | input that shows it | evidently intended | confidence | as-written member | corrected member |
|---|---|---|---|---|---|---|
| goauth-api/internals/adapters/repository/auth.go:70-75 | when the second `Set` fails, the compensation deletes `refreshTokenID`, which was never written | the access `Set` succeeds and the refresh `Set` fails: the access id stays mapped to the user while the call returns an error | delete `accessTokenID`, as the comment beside it says, so no partial session is left live | not executed | `AuthStore.FailedRefreshWriteLeaksAccessSession` | `AuthStore.RollbackRestoresStore` |
| goauth-api/internals/adapters/repository/auth.go:22-30 | `db.First(&user)` has no condition, and the test `RowsAffected != 0` is inverted | a table holding a user with username `u`, queried for `u`, returns "user not found" | return the user with the given username, and "user not found" when there is none | not executed | `AuthStore.GetUserByUsernameMissesExisting` | `AuthStore.FindUserByUsername` |
| gochat-api/internals/adapters/repository/user.go:162-170 | the same query without a condition and the same inverted test | a table holding a user with username `u`, queried for `u`, returns "user not found" | return the user with the given username, and "user not found" when there is none | not executed | `ChatRepository.GetUserByUsernameMissesExisting` | `ChatRepository.FindUserByUsername` |
