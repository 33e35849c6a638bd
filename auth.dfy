/**
 * Backend/controllers/auth.py: sign-up, sign-in and password reset over the
 * `users` table, each logged in `user_activities`.  The clock (`utcnow`) is the
 * parameter `now`; the random salt of a fresh bcrypt hash is the parameter
 * `salt`.
 */
module Auth {
  import opened Wrappers
  import opened Strings
  import opened Store
  import opened Queries
  import JwtConfig

  /** What `log_user_activity` reads from a request: path, client host, user agent header. */
  datatype RequestInfo = RequestInfo(path: string, host: string, userAgent: Option<string>)

  /** `db.query(User).filter(User.email == email).first()`, as a row position. */
  function FindByEmail(users: seq<User>, email: string): (r: Option<nat>)
    ensures r.Some? ==> r.value < |users| && users[r.value].email == email
                        && forall i :: 0 <= i < r.value ==> users[i].email != email
    ensures r.None? ==> forall i :: 0 <= i < |users| ==> users[i].email != email
  {
    First(users, (u: User) => u.email == email)
  }

  /** The activity row `log_user_activity` adds with the given id. */
  function Logged(id: nat, userId: nat, action: string, request: Option<RequestInfo>,
                  details: Option<string>, now: int): Activity
  {
    match request
    case None => Activity(id, userId, action, None, None, None, now, details)
    case Some(q) => Activity(id, userId, action, Some(q.path), Some(q.host), q.userAgent, now, details)
  }

  /** `{"sub": str(user_id)}`. */
  function Subject(userId: nat): JwtConfig.Claims {
    map["sub" := JwtConfig.Text(NatToString(userId))]
  }

  datatype Tokens = Tokens(access: JwtConfig.Token, refresh: JwtConfig.Token)

  /** The access and refresh tokens both handlers issue for a user at time `now`. */
  function IssueTokens(userId: nat, now: int): Tokens {
    Tokens(JwtConfig.CreateAccessToken(Subject(userId), None, now), JwtConfig.CreateRefreshToken(Subject(userId), now))
  }

  datatype SignupReply = SignupReply(message: string, userId: nat, tokens: Tokens, tokenType: string)
  datatype SigninReply = SigninReply(message: string, userId: nat, fullName: string, tokens: Tokens, tokenType: string)
  datatype ResetReply = ResetReply(message: string, userId: nat)

  const EmailTaken := HttpError(400, "Email already registered")
  const BadCredentials := HttpError(401, "Invalid email or password")
  const NoSuchUser := HttpError(404, "User not found")

  /** `log_user_activity`: appends one activity; without a request its request fields are empty. */
  method LogUserActivity(db: Database, userId: nat, action: string, request: Option<RequestInfo>,
                         details: Option<string>, now: int)
    modifies db`activities
    requires ActivityIds(db.activities)
    ensures ActivityIds(db.activities)
    ensures db.activities == old(db.activities) + [Logged(|old(db.activities)| + 1, userId, action, request, details, now)]
    ensures request.None? ==> var a := db.activities[|db.activities| - 1];
      a.endpoint.None? && a.ipAddress.None? && a.userAgent.None?
  {
    db.activities := db.activities + [Logged(|db.activities| + 1, userId, action, request, details, now)];
  }

  /**
   * `signup_user`: a taken email is refused and nothing is stored; otherwise
   * one user with the hashed password and one "signup" activity are added.
   */
  method SignupUser(db: Database, fullName: string, email: string, password: string, salt: nat,
                    request: Option<RequestInfo>, now: int)
    returns (r: Result<SignupReply, HttpError>)
    modifies db`users, db`activities
    requires UsersWellFormed(db.users) && ActivityIds(db.activities)
    ensures UsersWellFormed(db.users) && ActivityIds(db.activities)
    ensures FindByEmail(old(db.users), email).Some? ==>
      r == Err(EmailTaken) && db.users == old(db.users) && db.activities == old(db.activities)
    ensures FindByEmail(old(db.users), email).None? ==>
      var id := |old(db.users)| + 1;
      && db.users == old(db.users) + [User(id, fullName, email, Digest(salt, password), now, None, true, false)]
      && db.activities == old(db.activities) + [Logged(|old(db.activities)| + 1, id, "signup", request, None, now)]
      && r == Ok(SignupReply("User created successfully", id, IssueTokens(id, now), "bearer"))
  {
    if FindByEmail(db.users, email).Some? {
      return Err(EmailTaken);
    }
    var id := |db.users| + 1;
    db.users := db.users + [User(id, fullName, email, Digest(salt, password), now, None, true, false)];
    LogUserActivity(db, id, "signup", request, None, now);
    r := Ok(SignupReply("User created successfully", id, IssueTokens(id, now), "bearer"));
  }

  /** The decision of `signin_user`: the row position of the user, or the one refusal. */
  function SigninCheck(users: seq<User>, email: string, password: string): Result<nat, HttpError> {
    match FindByEmail(users, email)
    case None => Err(BadCredentials)
    case Some(i) => if VerifyPassword(password, users[i].hashedPassword) then Ok(i) else Err(BadCredentials)
  }

  /**
   * `signin_user`: refused with the same 401 for an unknown email or a wrong
   * password, changing nothing; otherwise `last_login` of that user alone is
   * set and one "signin" activity is added.
   */
  method SigninUser(db: Database, email: string, password: string, request: Option<RequestInfo>, now: int)
    returns (r: Result<SigninReply, HttpError>)
    modifies db`users, db`activities
    requires UsersWellFormed(db.users) && ActivityIds(db.activities)
    ensures UsersWellFormed(db.users) && ActivityIds(db.activities)
    ensures SigninCheck(old(db.users), email, password).Err? ==>
      r == Err(BadCredentials) && db.users == old(db.users) && db.activities == old(db.activities)
    ensures SigninCheck(old(db.users), email, password).Ok? ==>
      var i := SigninCheck(old(db.users), email, password).value;
      var u := old(db.users)[i];
      && db.users == old(db.users)[i := u.(lastLogin := Some(now))]
      && db.activities == old(db.activities) + [Logged(|old(db.activities)| + 1, u.id, "signin", request, None, now)]
      && r == Ok(SigninReply("Login successful", u.id, u.fullName, IssueTokens(u.id, now), "bearer"))
  {
    var found := FindByEmail(db.users, email);
    if found.None? || !VerifyPassword(password, db.users[found.value].hashedPassword) {
      return Err(BadCredentials);
    }
    var i := found.value;
    var u := db.users[i];
    db.users := db.users[i := u.(lastLogin := Some(now))];
    LogUserActivity(db, u.id, "signin", request, None, now);
    r := Ok(SigninReply("Login successful", u.id, u.fullName, IssueTokens(u.id, now), "bearer"));
  }

  /**
   * `reset_password`: an unknown email is refused with 404 and nothing
   * changes; otherwise only that user's hashed password is replaced and one
   * "password_reset" activity is added.
   */
  method ResetPassword(db: Database, email: string, newPassword: string, salt: nat,
                       request: Option<RequestInfo>, now: int)
    returns (r: Result<ResetReply, HttpError>)
    modifies db`users, db`activities
    requires UsersWellFormed(db.users) && ActivityIds(db.activities)
    ensures UsersWellFormed(db.users) && ActivityIds(db.activities)
    ensures FindByEmail(old(db.users), email).None? ==>
      r == Err(NoSuchUser) && db.users == old(db.users) && db.activities == old(db.activities)
    ensures FindByEmail(old(db.users), email).Some? ==>
      var i := FindByEmail(old(db.users), email).value;
      var u := old(db.users)[i];
      && db.users == old(db.users)[i := u.(hashedPassword := Digest(salt, newPassword))]
      && db.activities == old(db.activities) + [Logged(|old(db.activities)| + 1, u.id, "password_reset", request, None, now)]
      && r == Ok(ResetReply("Password reset successfully", u.id))
  {
    var found := FindByEmail(db.users, email);
    if found.None? {
      return Err(NoSuchUser);
    }
    var i := found.value;
    var u := db.users[i];
    db.users := db.users[i := u.(hashedPassword := Digest(salt, newPassword))];
    LogUserActivity(db, u.id, "password_reset", request, None, now);
    r := Ok(ResetReply("Password reset successfully", u.id));
  }

  // ---------------------------------------------------------------- properties

  /** With unique emails, the user found is the only one with that email. */
  lemma FindByEmailUnique(users: seq<User>, email: string, j: nat)
    requires UsersWellFormed(users)
    requires j < |users| && users[j].email == email
    ensures FindByEmail(users, email) == Some(j)
  {
  }

  /**
   * Sign-in succeeds exactly when some user has that email and the password
   * matches its hash; every refusal is the same 401, so the reply does not
   * tell an unknown email from a wrong password.
   */
  lemma SigninRefusalUniform(users: seq<User>, email: string, password: string)
    requires UsersWellFormed(users)
    ensures var r := SigninCheck(users, email, password);
      && (r.Ok? <==> exists i :: 0 <= i < |users| && users[i].email == email && VerifyPassword(password, users[i].hashedPassword))
      && (r.Err? ==> r.error == BadCredentials)
      && (r.Ok? ==> r.value < |users| && users[r.value].email == email)
  {
    if exists i :: 0 <= i < |users| && users[i].email == email && VerifyPassword(password, users[i].hashedPassword) {
      var i :| 0 <= i < |users| && users[i].email == email && VerifyPassword(password, users[i].hashedPassword);
      FindByEmailUnique(users, email, i);
    }
  }

  /** After a successful sign-up, signing in with the same email and password succeeds for the new user. */
  lemma SignupThenSignin(users: seq<User>, fullName: string, email: string, password: string, salt: nat, now: int)
    requires UsersWellFormed(users) && FindByEmail(users, email).None?
    ensures var after := users + [User(|users| + 1, fullName, email, Digest(salt, password), now, None, true, false)];
      && UsersWellFormed(after)
      && SigninCheck(after, email, password) == Ok(|users|)
  {
    var after := users + [User(|users| + 1, fullName, email, Digest(salt, password), now, None, true, false)];
    FindByEmailUnique(after, email, |users|);
  }

  /**
   * After a reset, the new password signs in, and another password signs in
   * exactly when it agrees with the new one on bcrypt's first 72 characters,
   * whoever else is in the table: a different password of at most 72
   * characters is refused.
   */
  lemma ResetThenSignin(users: seq<User>, email: string, newPassword: string, other: string, salt: nat)
    requires UsersWellFormed(users) && FindByEmail(users, email).Some?
    ensures var i := FindByEmail(users, email).value;
      var after := users[i := users[i].(hashedPassword := Digest(salt, newPassword))];
      && UsersWellFormed(after)
      && SigninCheck(after, email, newPassword) == Ok(i)
      && SigninCheck(after, email, other) == (if BcryptKey(other) == BcryptKey(newPassword) then Ok(i) else Err(BadCredentials))
      && (other != newPassword && |other| <= BcryptKeyLength && |newPassword| <= BcryptKeyLength ==>
            SigninCheck(after, email, other) == Err(BadCredentials))
  {
    var i := FindByEmail(users, email).value;
    var after := users[i := users[i].(hashedPassword := Digest(salt, newPassword))];
    FindByEmailUnique(after, email, i);
  }

  /**
   * The tokens carry `sub = str(id)`, read back as the same id: two users
   * never receive tokens with the same subject.
   */
  lemma TokensNameTheUser(userId: nat, now: int)
    ensures var t := IssueTokens(userId, now);
      && JwtConfig.Decode(t.access, now).Ok? && JwtConfig.Decode(t.refresh, now).Ok?
      && var sub := JwtConfig.Decode(t.access, now).value["sub"];
      && sub == JwtConfig.Decode(t.refresh, now).value["sub"]
      && sub.Text? && (forall k :: 0 <= k < |sub.s| ==> '0' <= sub.s[k] <= '9')
      && ParseDigits(sub.s) == userId
  {
    ParseNatToString(userId);
  }

  /** Tokens issued to different users have different subjects. */
  lemma TokensDistinguishUsers(a: nat, b: nat, now: int, later: int)
    requires a != b
    ensures JwtConfig.Decode(IssueTokens(a, now).access, now).Ok?
    ensures JwtConfig.Decode(IssueTokens(b, later).access, later).Ok?
    ensures JwtConfig.Decode(IssueTokens(a, now).access, now).value["sub"]
         != JwtConfig.Decode(IssueTokens(b, later).access, later).value["sub"]
  {
    if NatToString(a) == NatToString(b) {
      NatToStringInjective(a, b);
    }
  }
}
