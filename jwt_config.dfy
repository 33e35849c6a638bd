/**
 * The token-claim logic of Backend/config/jwt_config.py.  Claims follow
 * RFC 7519: `exp` (section 4.1.4), `iat` (section 4.1.6) and `sub`
 * (section 4.1.2), plus the application's own `type` claim.  Signing and
 * decoding are abstracted as an inverse pair: a signed token decodes to the
 * claims it was made from once python-jose's default claim checks pass, and
 * any other text fails to decode with an error message.  Times are whole
 * seconds since the epoch, passed in by the caller, and `zone` is the
 * server's local offset from UTC in seconds (east of Greenwich positive).
 */
module JwtConfig {
  import opened Wrappers
  import opened Strings

  /** A claim value: the model's claims are texts and whole numbers. */
  datatype Claim = Text(s: string) | Number(n: int)

  type Claims = map<string, Claim>

  /**
   * `jwt.encode` output, or any other text presented as a token, together with
   * the message of the `JWTError` that decoding it raises.
   */
  datatype Token = Signed(claims: Claims) | Forged(reason: string)

  predicate AllDigits(s: string) {
    s != [] && forall i :: 0 <= i < |s| ==> '0' <= s[i] <= '9'
  }

  /** Python's `int(v)` succeeds: a whole number, or decimal digits with an optional sign. */
  predicate IsInteger(c: Claim) {
    c.Number? || AllDigits(c.s) || (|c.s| > 1 && c.s[0] in "+-" && AllDigits(c.s[1..]))
  }

  /** The value of `int(v)`. */
  function IntegerValue(c: Claim): int
    requires IsInteger(c)
  {
    if c.Number? then c.n
    else if AllDigits(c.s) then ParseDigits(c.s)
    else if c.s[0] == '-' then 0 - ParseDigits(c.s[1..])
    else ParseDigits(c.s[1..])
  }

  const IatNotInteger := "Issued At claim (iat) must be an integer."
  const ExpNotInteger := "Expiration Time claim (exp) must be an integer."
  const SignatureExpired := "Signature has expired."
  const SubNotString := "Subject must be a string."

  /**
   * `jwt.decode` with python-jose's default options: `iat` and `exp` must be
   * integers, `exp` must not be before the clock, and `sub` must be a string,
   * checked in that order; a token that passes gives its claims, any other
   * gives the message of the `JWTError` raised.
   */
  function Decode(token: Token, now: int): Result<Claims, string> {
    match token
    case Forged(reason) => Err(reason)
    case Signed(claims) =>
      if "iat" in claims && !IsInteger(claims["iat"]) then Err(IatNotInteger)
      else if "exp" in claims && !IsInteger(claims["exp"]) then Err(ExpNotInteger)
      else if "exp" in claims && IntegerValue(claims["exp"]) < now then Err(SignatureExpired)
      else if "sub" in claims && !claims["sub"].Text? then Err(SubNotString)
      else Ok(claims)
  }

  const AccessTokenExpireMinutes := 30
  const RefreshTokenExpireDays := 7
  const MinuteSeconds := 60
  const DaySeconds := 86400

  const AccessType := "access"
  const RefreshType := "refresh"

  /** `HTTPException(401, detail)`, or an exception `verify_token` does not catch. */
  datatype Failure = Unauthorized(detail: string) | Uncaught

  const CredentialsPrefix := "Could not validate credentials: "
  const TokenExpired := "Token has expired"

  /** `data.copy()` updated with `exp`, `type` and `iat`. */
  function Stamped(data: Claims, expire: int, kind: string, now: int): Claims {
    data["exp" := Number(expire)]["type" := Text(kind)]["iat" := Number(now)]
  }

  /** The expiry of an access token; a missing or zero delta (a falsy `timedelta`) means the default lifetime. */
  function AccessExpiry(delta: Option<int>, now: int): int {
    if delta.Some? && delta.value != 0 then now + delta.value
    else now + AccessTokenExpireMinutes * MinuteSeconds
  }

  /** `create_access_token(data, expires_delta)` at time `now`. */
  function CreateAccessToken(data: Claims, delta: Option<int>, now: int): Token {
    Signed(Stamped(data, AccessExpiry(delta, now), AccessType, now))
  }

  /** `create_refresh_token(data)` at time `now`. */
  function CreateRefreshToken(data: Claims, now: int): Token {
    Signed(Stamped(data, now + RefreshTokenExpireDays * DaySeconds, RefreshType, now))
  }

  /**
   * `verify_token(token, token_type)` at time `now` on a server `zone` seconds
   * ahead of UTC: after `jwt.decode`, a wrong `type`, a missing `exp` and an
   * expired `exp` are rejected, in that order.  The expiry test compares the
   * UTC clock with `exp` converted to local time, that is `now > exp + zone`;
   * an `exp` that is a text makes `fromtimestamp` raise a `TypeError`, which
   * is not a `JWTError` and escapes.
   */
  function VerifyToken(token: Token, tokenType: string, now: int, zone: int): Result<Claims, Failure> {
    match Decode(token, now)
    case Err(e) => Err(Unauthorized(CredentialsPrefix + e))
    case Ok(payload) =>
      if !("type" in payload && payload["type"] == Text(tokenType)) then Err(Unauthorized("Invalid token type"))
      else if "exp" !in payload then Err(Unauthorized("Token missing expiration"))
      else if !payload["exp"].Number? then Err(Uncaught)
      else if now > payload["exp"].n + zone then Err(Unauthorized(TokenExpired))
      else Ok(payload)
  }

  /**
   * `verify_token` with its expiry test made in UTC on both sides
   * (`utcfromtimestamp`), which is the test as written on a server at UTC.
   * It never refuses a token the decoding accepted as unexpired.
   */
  function VerifyTokenInUtc(token: Token, tokenType: string, now: int): (r: Result<Claims, Failure>)
    ensures r != Err(Unauthorized(TokenExpired))
    ensures r.Ok? <==> Decode(token, now).Ok? && var p := Decode(token, now).value;
      && "type" in p && p["type"] == Text(tokenType) && "exp" in p && p["exp"].Number?
  {
    VerifyToken(token, tokenType, now, 0)
  }

  /** `refresh_access_token(refresh_token)` at time `now`, verifying in UTC. */
  function RefreshAccessToken(refreshToken: Token, now: int): Result<Token, Failure> {
    match VerifyTokenInUtc(refreshToken, RefreshType, now)
    case Err(Unauthorized(detail)) => Err(Unauthorized(detail))
    case Err(Uncaught) => Err(Unauthorized("Could not refresh token"))
    case Ok(payload) =>
      if "sub" !in payload then Err(Unauthorized("Invalid refresh token"))
      else Ok(CreateAccessToken(map["sub" := payload["sub"]], None, now))
  }

  /** A `sub` claim, where present, is a string, as the decoding requires. */
  predicate SubjectIsText(data: Claims) {
    "sub" in data ==> data["sub"].Text?
  }

  // ---------------------------------------------------------------- properties

  /**
   * The stamped claims carry the three added claims and keep every other
   * claim of the caller's dictionary as it was.
   */
  lemma StampedClaims(data: Claims, expire: int, kind: string, now: int)
    ensures var c := Stamped(data, expire, kind, now);
      && c["exp"] == Number(expire) && c["type"] == Text(kind) && c["iat"] == Number(now)
      && c.Keys == data.Keys + {"exp", "type", "iat"}
      && forall k :: k in data && k !in {"exp", "type", "iat"} ==> c[k] == data[k]
  {
  }

  /** An access token expires `delta` after `now`, or 30 minutes after when the delta is missing or zero. */
  lemma AccessTokenClaims(data: Claims, delta: Option<int>, now: int)
    ensures var t := CreateAccessToken(data, delta, now);
      && t.Signed?
      && t.claims == Stamped(data, t.claims["exp"].n, AccessType, now)
      && (delta.None? || delta == Some(0) ==> t.claims["exp"] == Number(now + 1800))
      && (delta.Some? && delta.value != 0 ==> t.claims["exp"] == Number(now + delta.value))
  {
  }

  /** A refresh token is of type "refresh" and expires seven days after `now`. */
  lemma RefreshTokenClaims(data: Claims, now: int)
    ensures CreateRefreshToken(data, now) == Signed(Stamped(data, now + 604800, RefreshType, now))
  {
  }

  /**
   * Decoding a signed token gives back exactly its claims when they are
   * well formed and unexpired, and fails otherwise; an expired token is
   * refused for its expiry whatever its subject.
   */
  lemma DecodeOutcomes(claims: Claims, now: int)
    ensures var d := Decode(Signed(claims), now);
      d.Ok? <==> && ("iat" in claims ==> IsInteger(claims["iat"]))
                 && ("exp" in claims ==> IsInteger(claims["exp"]) && now <= IntegerValue(claims["exp"]))
                 && SubjectIsText(claims)
    ensures Decode(Signed(claims), now).Ok? ==> Decode(Signed(claims), now).value == claims
    ensures (&& ("iat" !in claims || IsInteger(claims["iat"]))
             && "exp" in claims && IsInteger(claims["exp"]) && IntegerValue(claims["exp"]) < now)
            ==> Decode(Signed(claims), now) == Err(SignatureExpired)
  {
  }

  /**
   * A fresh access token verifies as an access token up to and including its
   * expiry second, provided the server's offset does not bring the local-time
   * test forward.
   */
  lemma AccessTokenVerifies(data: Claims, now: int, later: int, zone: int)
    requires SubjectIsText(data)
    requires later <= now + 1800 && later <= now + 1800 + zone
    ensures VerifyToken(CreateAccessToken(data, None, now), AccessType, later, zone)
         == Ok(Stamped(data, now + 1800, AccessType, now))
  {
  }

  /**
   * After its expiry second the token is refused by the decoding, before the
   * application's own tests, so with the library's message.
   */
  lemma AccessTokenExpires(data: Claims, now: int, later: int, zone: int)
    requires later > now + 1800
    ensures VerifyToken(CreateAccessToken(data, None, now), AccessType, later, zone)
         == Err(Unauthorized(CredentialsPrefix + SignatureExpired))
  {
  }

  /**
   * The application's own expiry test refuses a token only on a server west
   * of Greenwich: at UTC or east of it, "Token has expired" is never the answer.
   */
  lemma ExpiryTestOnlyBehindUtc(token: Token, tokenType: string, now: int, zone: int)
    ensures VerifyToken(token, tokenType, now, zone) == Err(Unauthorized(TokenExpired)) ==> zone < 0
  {
  }

  /**
   * On a server behind UTC, a fresh access token is refused as expired while
   * the decoding still accepts it: the whole of its lifetime when the offset
   * is at least 30 minutes.
   */
  lemma FreshTokenRefusedBehindUtc(data: Claims, now: int, later: int, zone: int)
    requires SubjectIsText(data)
    requires later <= now + 1800 < later - zone
    ensures Decode(CreateAccessToken(data, None, now), later).Ok?
    ensures VerifyToken(CreateAccessToken(data, None, now), AccessType, later, zone) == Err(Unauthorized(TokenExpired))
  {
  }

  /** With the test made in UTC, a fresh access token verifies for its whole lifetime. */
  lemma AccessTokenVerifiesInUtc(data: Claims, now: int, later: int)
    requires SubjectIsText(data)
    requires later <= now + 1800
    ensures VerifyTokenInUtc(CreateAccessToken(data, None, now), AccessType, later)
         == Ok(Stamped(data, now + 1800, AccessType, now))
  {
  }

  /**
   * Among tokens the decoding accepts, the type is checked first: one of the
   * wrong type is refused as such, whatever its expiry.
   */
  lemma TypeCheckedFirst(token: Token, tokenType: string, now: int, zone: int)
    requires Decode(token, now).Ok?
    requires var p := Decode(token, now).value; !("type" in p && p["type"] == Text(tokenType))
    ensures VerifyToken(token, tokenType, now, zone) == Err(Unauthorized("Invalid token type"))
  {
  }

  /**
   * An access token is never accepted where a refresh token is expected, and
   * conversely; while unexpired it is refused for its type, afterwards for
   * its expiry.
   */
  lemma KindsNotInterchangeable(data: Claims, delta: Option<int>, now: int, later: int, zone: int)
    ensures VerifyToken(CreateAccessToken(data, delta, now), RefreshType, later, zone).Err?
    ensures VerifyToken(CreateRefreshToken(data, now), AccessType, later, zone).Err?
    ensures RefreshAccessToken(CreateAccessToken(data, delta, now), later).Err?
    ensures SubjectIsText(data) && later <= AccessExpiry(delta, now) ==>
      && VerifyToken(CreateAccessToken(data, delta, now), RefreshType, later, zone) == Err(Unauthorized("Invalid token type"))
      && RefreshAccessToken(CreateAccessToken(data, delta, now), later) == Err(Unauthorized("Invalid token type"))
    ensures later > AccessExpiry(delta, now) ==>
      VerifyToken(CreateAccessToken(data, delta, now), RefreshType, later, zone) == Err(Unauthorized(CredentialsPrefix + SignatureExpired))
    ensures SubjectIsText(data) && later <= now + 604800 ==>
      VerifyToken(CreateRefreshToken(data, now), AccessType, later, zone) == Err(Unauthorized("Invalid token type"))
  {
    assert AccessType != RefreshType;
  }

  /**
   * An accepted payload is the decoded one, unchanged, of the expected type
   * and with a numeric `exp` that passes both expiry tests; a token that does
   * not decode is refused with the decoding's message.
   */
  lemma VerifyOutcomes(token: Token, tokenType: string, now: int, zone: int)
    ensures var v := VerifyToken(token, tokenType, now, zone);
      v.Ok? ==> Decode(token, now) == Ok(v.value) && v.value["type"] == Text(tokenType)
                && "exp" in v.value && v.value["exp"].Number? && now <= v.value["exp"].n
                && now <= v.value["exp"].n + zone
    ensures Decode(token, now).Err? ==>
      VerifyToken(token, tokenType, now, zone) == Err(Unauthorized(CredentialsPrefix + Decode(token, now).error))
  {
  }

  /** A decodable token of the right type without `exp` is refused as such. */
  lemma MissingExpiration(claims: Claims, tokenType: string, now: int, zone: int)
    requires "type" in claims && claims["type"] == Text(tokenType) && "exp" !in claims
    requires ("iat" !in claims || IsInteger(claims["iat"])) && SubjectIsText(claims)
    ensures VerifyToken(Signed(claims), tokenType, now, zone) == Err(Unauthorized("Token missing expiration"))
  {
  }

  /**
   * An `exp` given as a text of digits passes the decoding but makes the
   * expiry test raise, and the error escapes `verify_token`.
   */
  lemma TextExpiryEscapes(claims: Claims, tokenType: string, now: int, zone: int)
    requires "type" in claims && claims["type"] == Text(tokenType)
    requires "exp" in claims && claims["exp"].Text? && AllDigits(claims["exp"].s)
    requires now <= ParseDigits(claims["exp"].s)
    requires ("iat" !in claims || IsInteger(claims["iat"])) && SubjectIsText(claims)
    ensures VerifyToken(Signed(claims), tokenType, now, zone) == Err(Uncaught)
  {
  }

  /**
   * Refreshing a live refresh token that carries a subject gives an access
   * token for the same subject, valid for 30 minutes from the refresh.
   */
  lemma RefreshKeepsSubject(data: Claims, issued: int, now: int)
    requires "sub" in data && data["sub"].Text?
    requires now <= issued + 604800
    ensures RefreshAccessToken(CreateRefreshToken(data, issued), now)
         == Ok(Signed(map["sub" := data["sub"], "exp" := Number(now + 1800), "type" := Text(AccessType), "iat" := Number(now)]))
  {
  }

  /** A refresh token past its seven days is refused for its expiry. */
  lemma RefreshTokenExpires(data: Claims, issued: int, now: int)
    requires now > issued + 604800
    ensures RefreshAccessToken(CreateRefreshToken(data, issued), now)
         == Err(Unauthorized(CredentialsPrefix + SignatureExpired))
  {
  }

  /** A live refresh token without a subject is refused. */
  lemma RefreshNeedsSubject(data: Claims, issued: int, now: int)
    requires "sub" !in data
    requires now <= issued + 604800
    ensures RefreshAccessToken(CreateRefreshToken(data, issued), now) == Err(Unauthorized("Invalid refresh token"))
  {
  }
}
