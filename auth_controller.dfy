/**
 * The public account endpoints of server/src/controllers/authController.js:
 * checking an email, mailing a verification code, registering, logging in
 * and resetting a password. The `check-user`, `send-email-code` and
 * `register` routes run the validator first, so their `email` (and the
 * registration `password`) arrive as strings.
 */
module AuthController {
  import opened Common
  import opened ApiResponse
  import opened Identity
  import opened Database
  import opened EmailService
  import Validator

  // ---- checkUser ----

  datatype Existence = Existence(userExists: bool)

  /** `checkUser`: whether some user has this email. */
  function CheckUser(db: Store, email: string): (r: Reply<Existence>)
    reads db
    ensures r.httpStatus == 200 && r.body.data.Some? && r.body.msg == "Success"
    ensures r.body.data.value.userExists <==> exists j :: 0 <= j < |db.users| && db.users[j].email == email
  {
    Ok(Some(Existence(FindUserByEmail(db.users, email).Some?)), None)
  }

  // ---- sendEmailCode ----

  /** Why `sendEmailCode` refuses to send, if it does; `type` defaults to "register" only when absent. */
  function EmailCodeRefusal(users: seq<User>, email: string, kind: Option<string>): (e: Option<Reply<()>>)
    ensures kind.GetOr(DefaultKind) == "register" ==>
      (e.Some? <==> FindUserByEmail(users, email).Some?) && (e.Some? ==> e.value == Fail("Email already registered", 400))
    ensures kind.GetOr(DefaultKind) == "reset" ==>
      (e.Some? <==> FindUserByEmail(users, email).None?) && (e.Some? ==> e.value == Fail("Email not found", 404))
    ensures kind.GetOr(DefaultKind) != "register" && kind.GetOr(DefaultKind) != "reset" ==> e.None?
  {
    var k := kind.GetOr(DefaultKind);
    if k == "register" then
      if FindUserByEmail(users, email).Some? then Some(Fail("Email already registered", 400)) else None
    else if k == "reset" then
      if FindUserByEmail(users, email).None? then Some(Fail("Email not found", 404)) else None
    else None
  }

  /**
   * `sendEmailCode`: unless refused, store a fresh six-digit code for the
   * email and purpose. Mailing it is not modelled.
   */
  method SendEmailCode(db: Store, email: string, kind: Option<string>, now: int) returns (r: Reply<()>)
    requires db.Valid()
    modifies db`verifications
    ensures db.Valid()
    ensures EmailCodeRefusal(old(db.users), email, kind).Some? ==>
      r == EmailCodeRefusal(old(db.users), email, kind).value && db.verifications == old(db.verifications)
    ensures EmailCodeRefusal(old(db.users), email, kind).None? ==>
      && r == Ok(None, Some("Verification code sent successfully"))
      && exists code :: IsVerificationCode(code) && db.verifications == old(db.verifications) + [VerificationCode(
           NextVerificationId(old(db.verifications)), email, code, kind.GetOr(DefaultKind),
           now + MsPerTenMinutes, false, SqliteNow(now))]
  {
    var refusal := EmailCodeRefusal(db.users, email, kind);
    if refusal.Some? {
      return refusal.value;
    }
    var code := SendVerificationCode(db, email, kind, now);
    r := Ok(None, Some("Verification code sent successfully"));
  }

  // ---- register ----

  /** `email.split('@')[0]`: everything before the first '@', or all of it. */
  function LocalPart(s: string): (r: string)
    ensures |r| <= |s| && r == s[..|r|]
    ensures '@' !in r
    ensures |r| == |s| || s[|r|] == '@'
    decreases |s|
  {
    if s == [] || s[0] == '@' then [] else [s[0]] + LocalPart(s[1..])
  }

  /**
   * Registration names the user after the email's local part without
   * applying `validateUsername`: an email the validator accepts can yield
   * a username that rule rejects.
   */
  lemma UsernameRuleNotApplied()
    ensures Validator.ValidEmail("ab@c.d")
    ensures LocalPart("ab@c.d") == "ab" && !Validator.ValidUsername(Some(LocalPart("ab@c.d")))
  {
    assert "ab@c.d"[2] == '@' && "ab@c.d"[4] == '.';
    assert LocalPart("ab@c.d") == "ab" by {
      assert "ab@c.d"[1..] == "b@c.d" && "b@c.d"[1..] == "@c.d";
    }
  }

  datatype Session = Session(token: string, expiresTime: int)

  /**
   * The row `register` inserts: level 0, no quota, expiring at once
   * (`datetime('now')`), named after the email's local part.
   */
  function NewUser(users: seq<User>, email: string, passwordHash: string, now: int): (u: User)
    ensures forall k :: 0 <= k < |users| ==> users[k].id != u.id
    ensures u.email == email && u.username == LocalPart(email) && u.passwordHash == passwordHash
    ensures u.level == 0 && u.totalCount == 0 && u.usedCount == 0 && u.expireTime == Some(SqliteNow(now))
  {
    User(NextUserId(users), email, LocalPart(email), passwordHash, 0, 0, 0, Some(SqliteNow(now)))
  }

  /**
   * `register`. The email is checked before the code, so a taken email
   * leaves the code unconsumed; a failed verification sends its message
   * with 400.
   */
  method Register(db: Store, crypto: Crypto, email: string, password: string, code: Option<string>, now: int)
    returns (r: Reply<Session>)
    requires db.Valid()
    modifies db`users, db`verifications
    ensures db.Valid()
    ensures FindUserByEmail(old(db.users), email).Some? ==>
      r == Fail("Email already registered", 400) && db.users == old(db.users) && db.verifications == old(db.verifications)
    ensures FindUserByEmail(old(db.users), email).None? ==>
      var v := Check(old(db.verifications), email, code, "register", now);
      && db.verifications == AfterCheck(old(db.verifications), email, code, "register", now)
      && (v.Invalid? ==> r == Fail(v.error, 400) && db.users == old(db.users))
      && (v.Valid? ==>
            var u := NewUser(old(db.users), email, crypto.hash(password), now);
            && db.users == old(db.users) + [u]
            && r == Ok(Some(Session(crypto.sign(Claims(u.id, email, u.username, 0)), now / 1000 + SessionSeconds)),
                       Some("Registration successful")))
  {
    if FindUserByEmail(db.users, email).Some? {
      return Fail("Email already registered", 400);
    }
    var verification := VerifyCode(db, email, code, "register", now);
    if verification.Invalid? {
      return Fail(verification.error, 400);
    }
    var u := NewUser(db.users, email, crypto.hash(password), now);
    db.users := db.users + [u];
    r := Ok(Some(Session(crypto.sign(Claims(u.id, email, u.username, 0)), now / 1000 + SessionSeconds)),
            Some("Registration successful"));
  }

  // ---- login ----

  /** `code_level`: the name of a membership level; any level above 2 (or below 0) reads "Premium". */
  function TierLabel(level: int): (name: string)
    ensures name in ["Free", "Basic", "Pro", "Premium"]
    ensures name == "Free" <==> level == 0
    ensures name == "Basic" <==> level == 1
    ensures name == "Pro" <==> level == 2
  {
    if level == 0 then "Free" else if level == 1 then "Basic" else if level == 2 then "Pro" else "Premium"
  }

  /** `user_info` of the login reply. */
  datatype LoginInfo = LoginInfo(
    totalCount: int, usedCount: int, expireTime: Option<int>, level: int, isExpired: bool,
    username: string, codeLevel: string, codeStatus: int)

  datatype LoginData = LoginData(token: string, userInfo: LoginInfo)

  /**
   * What a successful login reports about `u`. A missing expiry reads as
   * the epoch (`new Date(null)`), so it counts as expired.
   */
  function Describe(u: User, now: int): (info: LoginInfo)
    ensures info.totalCount == u.totalCount && info.usedCount == u.usedCount && info.expireTime == u.expireTime
    ensures info.level == u.level && info.username == u.username && info.codeStatus == 1
    ensures info.isExpired <==> (u.expireTime.None? && 0 < now) || (u.expireTime.Some? && u.expireTime.value < now)
    ensures info.codeLevel == TierLabel(u.level)
  {
    LoginInfo(u.totalCount, u.usedCount, u.expireTime, u.level, u.expireTime.GetOr(0) < now,
      u.username, TierLabel(u.level), 1)
  }

  /**
   * `login`. An unknown email and a wrong password get the same reply, so
   * the endpoint does not reveal which emails are registered.
   */
  function Login(db: Store, crypto: Crypto, account: Option<string>, email: Option<string>, password: Option<string>, now: int)
    : (r: Reply<LoginData>)
    reads db
    ensures !Present(OrElse(account, email)) || !Present(password) ==> r == Fail("Email and password are required", 400)
    ensures Present(OrElse(account, email)) && Present(password) ==>
      match FindUserByEmail(db.users, OrElse(account, email).value)
      case None => r == Fail("Invalid email or password", 401)
      case Some(i) =>
        var u := db.users[i];
        if crypto.compare(password.value, u.passwordHash) then
          r == Ok(Some(LoginData(crypto.sign(Claims(u.id, u.email, u.username, u.level)), Describe(u, now))),
                  Some("Login successful"))
        else r == Fail("Invalid email or password", 401)
    ensures r.httpStatus == 200 || r.body.data.None?
  {
    var loginEmail := OrElse(account, email);
    if !Present(loginEmail) || !Present(password) then Fail("Email and password are required", 400)
    else match FindUserByEmail(db.users, loginEmail.value)
      case None => Fail("Invalid email or password", 401)
      case Some(i) =>
        var u := db.users[i];
        if !crypto.compare(password.value, u.passwordHash) then Fail("Invalid email or password", 401)
        else Ok(Some(LoginData(crypto.sign(Claims(u.id, u.email, u.username, u.level)), Describe(u, now))),
                Some("Login successful"))
  }

  /**
   * A user whose stored hash is the hash of `password` can log in with it,
   * provided the hash function and its comparison agree.
   */
  lemma LoginAcceptsStoredPassword(db: Store, crypto: Crypto, email: string, password: string, now: int)
    requires email != "" && password != ""
    requires FindUserByEmail(db.users, email).Some?
    requires db.users[FindUserByEmail(db.users, email).value].passwordHash == crypto.hash(password)
    requires crypto.compare(password, crypto.hash(password))
    ensures Login(db, crypto, None, Some(email), Some(password), now).httpStatus == 200
    ensures Login(db, crypto, None, Some(email), Some(password), now).body.msg == "Login successful"
  {
  }

  /** A row appended for an email no earlier row has is the row the email now finds. */
  lemma {:induction false} AppendedUserIsFound(users: seq<User>, u: User)
    requires FindUserByEmail(users, u.email).None?
    ensures FindUserByEmail(users + [u], u.email) == Some(|users|)
  {
    var all := users + [u];
    assert all[|users|] == u;
    assert forall k :: 0 <= k < |users| ==> all[k] == users[k];
  }

  /**
   * Registering makes the email and password work for login: the new user
   * is the one the email finds, and its hash is that of the password.
   */
  lemma RegisteredUserCanLogIn(db: Store, before: seq<User>, crypto: Crypto, email: string, password: string, now: int)
    requires email != "" && password != ""
    requires FindUserByEmail(before, email).None?
    requires db.users == before + [NewUser(before, email, crypto.hash(password), now)]
    requires crypto.compare(password, crypto.hash(password))
    ensures Login(db, crypto, None, Some(email), Some(password), now).httpStatus == 200
    ensures Login(db, crypto, None, Some(email), Some(password), now).body.data.value.userInfo.codeLevel == "Free"
  {
    var u := NewUser(before, email, crypto.hash(password), now);
    AppendedUserIsFound(before, u);
    LoginAcceptsStoredPassword(db, crypto, email, password, now);
  }

  // ---- resetPassword ----

  /** The first check `resetPassword` fails before verifying the code, if any, in source order. */
  function ResetRefusal(users: seq<User>, email: Option<string>, code: Option<string>, password: Option<string>)
    : (e: Option<Reply<()>>)
    ensures !Present(email) || !Present(code) || !Present(password) ==>
      e == Some(Fail("Email, code, and password are required", 400))
    ensures Present(email) && Present(code) && Present(password) ==>
      && (Utf16Length(password.value) < 6 ==> e == Some(Fail("Password must be at least 6 characters", 400)))
      && (Utf16Length(password.value) >= 6 ==>
            (e.Some? <==> FindUserByEmail(users, email.value).None?) && (e.Some? ==> e.value == Fail("Email not found", 404)))
  {
    if !Present(email) || !Present(code) || !Present(password) then Some(Fail("Email, code, and password are required", 400))
    else if Utf16Length(password.value) < 6 then Some(Fail("Password must be at least 6 characters", 400))
    else if FindUserByEmail(users, email.value).None? then Some(Fail("Email not found", 404))
    else None
  }

  /**
   * `resetPassword`: after the checks and a successful "reset"
   * verification, only the email's user changes, and only its hash.
   */
  method ResetPassword(db: Store, crypto: Crypto, email: Option<string>, code: Option<string>, password: Option<string>, now: int)
    returns (r: Reply<()>)
    requires db.Valid()
    modifies db`users, db`verifications
    ensures db.Valid()
    ensures ResetRefusal(old(db.users), email, code, password).Some? ==>
      r == ResetRefusal(old(db.users), email, code, password).value
      && db.users == old(db.users) && db.verifications == old(db.verifications)
    ensures ResetRefusal(old(db.users), email, code, password).None? ==>
      var v := Check(old(db.verifications), email.value, code, "reset", now);
      && db.verifications == AfterCheck(old(db.verifications), email.value, code, "reset", now)
      && (v.Invalid? ==> r == Fail(v.error, 400) && db.users == old(db.users))
      && (v.Valid? ==>
            var i := FindUserByEmail(old(db.users), email.value).value;
            && r == Ok(None, Some("Password reset successful"))
            && db.users == old(db.users)[i := old(db.users)[i].(passwordHash := crypto.hash(password.value))])
  {
    var refusal := ResetRefusal(db.users, email, code, password);
    if refusal.Some? {
      return refusal.value;
    }
    var verification := VerifyCode(db, email.value, code, "reset", now);
    if verification.Invalid? {
      return Fail(verification.error, 400);
    }
    var i := FindUserByEmail(db.users, email.value).value;
    db.users := db.users[i := db.users[i].(passwordHash := crypto.hash(password.value))];
    r := Ok(None, Some("Password reset successful"));
  }

  /** After a reset the new password logs in (given a hash and comparison that agree). */
  lemma ResetUserCanLogIn(db: Store, before: seq<User>, crypto: Crypto, email: string, password: string, now: int)
    requires UsersValid(before) && email != "" && password != ""
    requires FindUserByEmail(before, email).Some?
    requires var i := FindUserByEmail(before, email).value;
      db.users == before[i := before[i].(passwordHash := crypto.hash(password))]
    requires crypto.compare(password, crypto.hash(password))
    ensures Login(db, crypto, None, Some(email), Some(password), now).httpStatus == 200
  {
    var i := FindUserByEmail(before, email).value;
    assert db.users[i].email == email;
    IdSinglesOutUser(db.users, i);
    LoginAcceptsStoredPassword(db, crypto, email, password, now);
  }
}
