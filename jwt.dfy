/**
  The JSON Web Token codec as both services use it (golang-jwt v5), idealised.

  A token string is represented by what the parser can read from it: three
  well-formed segments become `Compact(alg, claims, signature)`, anything else
  is `Malformed(text)`; the empty string is `Malformed("")`. The signature
  segment is `Mac(alg, key, claims)`, the keyed hash over header and payload;
  it is idealised as injective, so a token verifies under a key exactly when
  it was signed with that key (HMAC, section 3.2 of RFC 7518).
*/
module Jwt {
  import opened Wrappers

  /** An instant, in nanoseconds since the Unix epoch (Go's `time.Time`). */
  type Instant = int

  /** A span of time in nanoseconds (Go's `time.Duration`). */
  type Duration = int

  const Second: Duration := 1_000_000_000

  /**
    `jwt.NewNumericDate`: a NumericDate counts whole seconds (section 2 of
    RFC 7519), so the instant is truncated to the library's TimePrecision.
  */
  function NumericDate(t: Instant): (d: Instant)
    ensures d <= t < d + Second
    ensures d % Second == 0
  {
    t - t % Second
  }

  /** The registered claims the services set: `jti` (section 4.1.7 of RFC 7519),
      `exp` (4.1.4), `iat` (4.1.6) and `iss` (4.1.1). */
  datatype RegisteredClaims = RegisteredClaims(id: string, expiresAt: Instant, issuedAt: Instant, issuer: string)

  /** The private claims of both services (a user id, username and email) next
      to the registered ones. */
  datatype Claims = Claims(userId: string, username: string, email: string, registered: RegisteredClaims)

  /** The `alg` header: the methods the library registers, and any other name. */
  datatype Alg =
    | HS256 | HS384 | HS512
    | RS256 | RS384 | RS512
    | ES256 | ES384 | ES512
    | PS256 | PS384 | PS512
    | EdDSA | NoneAlg
    | Unregistered(name: string)

  /** The key function of both services accepts exactly the HMAC methods. */
  predicate IsHmac(alg: Alg) {
    alg.HS256? || alg.HS384? || alg.HS512?
  }

  datatype Signature = Mac(alg: Alg, key: string, claims: Claims)

  datatype Token = Compact(alg: Alg, claims: Claims, signature: Signature) | Malformed(text: string)

  /** The empty token string (an absent cookie). */
  const Empty: Token := Malformed("")

  datatype ParseError =
    | TokenMalformed
    | SigningMethodUnavailable   // an `alg` the library does not know
    | UnexpectedSigningMethod    // refused by the key function: not HMAC
    | SignatureInvalid
    | TokenExpired               // claims validation: `exp` not after the clock

  /** `jwt.NewWithClaims(jwt.SigningMethodHS256, claims).SignedString(key)`. */
  function Sign(claims: Claims, key: string): (t: Token)
    ensures t.Compact? && t.alg == HS256
    ensures forall at :: Parse(t, key, at) == if at < claims.registered.expiresAt then Ok(claims) else Err(TokenExpired)
  {
    Compact(HS256, claims, Mac(HS256, key, claims))
  }

  /**
    `jwt.ParseWithClaims` with a key function that refuses every method but
    HMAC and returns `key`, reading the clock at `at`: decode, look up the
    method, run the key function, verify the signature, then validate the
    claims (a token is expired unless `at` is before its `exp`).
  */
  function Parse(t: Token, key: string, at: Instant): (r: Result<Claims, ParseError>)
    // accepted tokens are exactly the HMAC tokens signed with this key that have not expired
    ensures r.Ok? ==> t.Compact? && t == Compact(t.alg, r.value, Mac(t.alg, key, r.value)) && IsHmac(t.alg)
    ensures r.Ok? ==> at < r.value.registered.expiresAt
    ensures t.Compact? && IsHmac(t.alg) && t.signature == Mac(t.alg, key, t.claims) && at < t.claims.registered.expiresAt
            ==> r == Ok(t.claims)
    // no other algorithm gets as far as the key
    ensures t.Compact? && !IsHmac(t.alg) ==> r.Err? && r.error in {SigningMethodUnavailable, UnexpectedSigningMethod}
  {
    match t
    case Malformed(_) => Err(TokenMalformed)
    case Compact(alg, claims, signature) =>
      if alg.Unregistered? then Err(SigningMethodUnavailable)
      else if !IsHmac(alg) then Err(UnexpectedSigningMethod)
      else if signature != Mac(alg, key, claims) then Err(SignatureInvalid)
      else if !(at < claims.registered.expiresAt) then Err(TokenExpired)
      else Ok(claims)
  }

  /** A token signed with one key never verifies under another. */
  lemma ForeignKeyRejected(claims: Claims, key: string, other: string, at: Instant)
    requires key != other
    ensures Parse(Sign(claims, key), other, at) == Err(SignatureInvalid)
  {
  }
}
