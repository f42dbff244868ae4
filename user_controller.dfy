/**
 * The authenticated user endpoints of server/src/controllers/userController.js:
 * the quota summary, changing the password, and redeeming an activation
 * code. The routes put `authenticate` in front of all three, so `userId` is
 * the id from a verified session token.
 */
module UserController {
  import opened Common
  import opened ApiResponse
  import opened Identity
  import opened Database

  // ---- activation: the values computed before the transaction ----

  const DefaultDurationDays: int := 30

  /** `activationCode.duration || 30`: a missing or zero duration grants thirty days. */
  function DurationDays(duration: Option<int>): (d: int)
    ensures duration.Some? && duration.value != 0 ==> d == duration.value
    ensures duration.None? || duration.value == 0 ==> d == DefaultDurationDays
    ensures d != 0
  {
    if duration.Some? && duration.value != 0 then duration.value else DefaultDurationDays
  }

  /**
   * The new `expire_time`: an expiry still in the future is extended
   * (stacking); a past or missing one restarts from `now`.
   */
  function NewExpireTime(current: Option<int>, days: int, now: int): int {
    var currentExpire := current.GetOr(now);
    if currentExpire > now then currentExpire + days * MsPerDay else now + days * MsPerDay
  }

  /**
   * The granted days always start at the later of `now` and the current
   * expiry, so redeeming while still entitled never forfeits remaining time.
   */
  lemma ExpiryStacks(current: Option<int>, days: int, now: int)
    ensures NewExpireTime(current, days, now) == Max(current.GetOr(now), now) + days * MsPerDay
    ensures current.Some? && current.value > now ==> NewExpireTime(current, days, now) == current.value + days * MsPerDay
    ensures (current.None? || current.value <= now) ==> NewExpireTime(current, days, now) == now + days * MsPerDay
    ensures days > 0 ==> NewExpireTime(current, days, now) > now
    ensures days > 0 && current.Some? ==> NewExpireTime(current, days, now) > current.value
  {
  }

  /** The user row after redeeming `c`: level, expiry and total quota change, nothing else. */
  function Activated(u: User, c: ActivationCode, now: int): (r: User)
    ensures r.(level := u.level, expireTime := u.expireTime, totalCount := u.totalCount) == u
    ensures r.level == Max(u.level, c.level) && r.level >= u.level
    ensures r.totalCount == u.totalCount + c.quota.GetOr(0) && r.usedCount == u.usedCount
    ensures r.expireTime == Some(NewExpireTime(u.expireTime, DurationDays(c.duration), now))
  {
    u.(level := Max(u.level, c.level),
       expireTime := Some(NewExpireTime(u.expireTime, DurationDays(c.duration), now)),
       totalCount := u.totalCount + c.quota.GetOr(0))
  }

  /** The code row after one redemption: one more use, stamped with the activation time. */
  function Redeemed(c: ActivationCode, now: int): (r: ActivationCode)
    ensures r.(usedCount := c.usedCount, activatedAt := c.activatedAt) == c
    ensures r.usedCount == c.usedCount + 1 && r.activatedAt == Some(SqliteNow(now))
  {
    c.(usedCount := c.usedCount + 1, activatedAt := Some(SqliteNow(now)))
  }

  /** Neither exhausted nor past its `expired_at`. */
  predicate Redeemable(c: ActivationCode, now: int) {
    c.usedCount < c.maxUses && !(c.expiredAt.Some? && now > c.expiredAt.value)
  }

  // ---- activation: the checks ----

  datatype Decision = Refuse(reply: Reply<()>) | Grant(userIndex: nat, codeIndex: nat)

  /** A code was sent and is not blank. */
  predicate CodeGiven(code: Option<string>) {
    Present(code) && !AllWhitespace(code.value)
  }

  /**
   * The checks `activate` makes before its transaction, in source order;
   * `Grant` names the user row and the code row the transaction updates.
   */
  function ActivationDecision(users: seq<User>, codes: seq<ActivationCode>, userId: int, code: Option<string>, now: int): (d: Decision)
    ensures !CodeGiven(code) ==> d == Refuse(Fail("Activation code is required", 400))
    ensures CodeGiven(code) && FindActiveCode(codes, Trim(code.value)).None? ==>
      d == Refuse(Fail("Invalid or inactive activation code", 400))
    ensures CodeGiven(code) && FindActiveCode(codes, Trim(code.value)).Some? ==>
      var c := codes[FindActiveCode(codes, Trim(code.value)).value];
      && (c.usedCount >= c.maxUses ==> d == Refuse(Fail("Activation code has reached maximum usage", 400)))
      && (c.usedCount < c.maxUses && c.expiredAt.Some? && now > c.expiredAt.value ==>
            d == Refuse(Fail("Activation code has expired", 400)))
      && (Redeemable(c, now) && FindUserById(users, userId).None? ==> d == Refuse(Fail("User not found", 404)))
    ensures d.Grant? <==>
      CodeGiven(code) && FindActiveCode(codes, Trim(code.value)).Some?
      && Redeemable(codes[FindActiveCode(codes, Trim(code.value)).value], now)
      && FindUserById(users, userId).Some?
    ensures d.Grant? ==>
      && d.codeIndex < |codes| && d.userIndex < |users|
      && codes[d.codeIndex].code == Trim(code.value) && codes[d.codeIndex].status == 1
      && Redeemable(codes[d.codeIndex], now) && users[d.userIndex].id == userId
      && d.codeIndex == FindActiveCode(codes, Trim(code.value)).value
      && d.userIndex == FindUserById(users, userId).value
  {
    if !Present(code) || (TrimEmptyIffBlank(code.value); Trim(code.value) == "") then
      Refuse(Fail("Activation code is required", 400))
    else
      match FindActiveCode(codes, Trim(code.value))
      case None => Refuse(Fail("Invalid or inactive activation code", 400))
      case Some(ci) =>
        var c := codes[ci];
        if c.usedCount >= c.maxUses then Refuse(Fail("Activation code has reached maximum usage", 400))
        else if c.expiredAt.Some? && now > c.expiredAt.value then Refuse(Fail("Activation code has expired", 400))
        else match FindUserById(users, userId)
          case None => Refuse(Fail("User not found", 404))
          case Some(ui) => Grant(ui, ci)
  }

  /**
   * Redeeming keeps every table invariant: the code's uses stay within
   * `max_uses`, the user's consumption stays within the (grown) quota, and
   * ids, emails and code strings stay unique. The user's level never drops.
   */
  lemma {:induction false} GrantKeepsInvariants(users: seq<User>, codes: seq<ActivationCode>, ui: nat, ci: nat, now: int)
    requires UsersValid(users) && CodesValid(codes)
    requires ui < |users| && ci < |codes| && Redeemable(codes[ci], now)
    ensures UsersValid(users[ui := Activated(users[ui], codes[ci], now)])
    ensures CodesValid(codes[ci := Redeemed(codes[ci], now)])
    ensures Activated(users[ui], codes[ci], now).level >= users[ui].level
  {
    var c := codes[ci];
    assert WithinLimits(c);
    assert c.quota.GetOr(0) >= 0;
    var c' := Redeemed(c, now);
    assert c'.usedCount <= c.maxUses;
    assert WithinLimits(c');
    var codes' := codes[ci := c'];
    assert forall i :: 0 <= i < |codes'| ==> WithinLimits(codes'[i]);
  }

  /**
   * The worked example: a user at 5 of 5 requests at level 0 redeems a
   * 30-day, 10-request, level-1 code and ends at 15 requests, level 1, with
   * thirty days added to whichever is later, the old expiry or now.
   */
  lemma WorkedExample(u: User, c: ActivationCode, now: int)
    requires u.level == 0 && u.totalCount == 5 && u.usedCount == 5
    requires c.duration == Some(30) && c.quota == Some(10) && c.level == 1
    ensures Activated(u, c, now).totalCount == 15 && Activated(u, c, now).level == 1
    ensures (u.expireTime.None? || u.expireTime.value <= now) ==>
      Activated(u, c, now).expireTime == Some(now + 30 * MsPerDay)
    ensures u.expireTime.Some? && u.expireTime.value > now ==>
      Activated(u, c, now).expireTime == Some(u.expireTime.value + 30 * MsPerDay)
  {
    ExpiryStacks(u.expireTime, 30, now);
  }

  /**
   * `activate`. Every refusal happens before `BEGIN TRANSACTION` and
   * leaves both tables as they were; a grant updates the user row and the
   * code row in one atomic step.
   */
  method Activate(db: Store, userId: int, code: Option<string>, now: int) returns (r: Reply<()>)
    requires db.Valid()
    modifies db`users, db`codes
    ensures db.Valid()
    ensures match ActivationDecision(old(db.users), old(db.codes), userId, code, now)
      case Refuse(reply) => r == reply && db.users == old(db.users) && db.codes == old(db.codes)
      case Grant(ui, ci) =>
        && r == Ok(None, Some("Account activated successfully"))
        && db.users == old(db.users)[ui := Activated(old(db.users)[ui], old(db.codes)[ci], now)]
        && db.codes == old(db.codes)[ci := Redeemed(old(db.codes)[ci], now)]
  {
    var d := ActivationDecision(db.users, db.codes, userId, code, now);
    if d.Refuse? {
      return d.reply;
    }
    var users, codes, ui, ci := db.users, db.codes, d.userIndex, d.codeIndex;
    GrantKeepsInvariants(users, codes, ui, ci, now);
    // BEGIN TRANSACTION; UPDATE users ...; UPDATE activation_codes ...; COMMIT
    db.users, db.codes := users[ui := Activated(users[ui], codes[ci], now)], codes[ci := Redeemed(codes[ci], now)];
    r := Ok(None, Some("Account activated successfully"));
  }

  // ---- updatePassword ----

  /** The first check `updatePassword` fails, if any, in source order. */
  function PasswordChangeRefusal(
    users: seq<User>, crypto: Crypto, userId: int,
    oldPassword: Option<string>, newPassword: Option<string>, confirmPassword: Option<string>): (e: Option<Reply<()>>)
    ensures !Present(oldPassword) || !Present(newPassword) || !Present(confirmPassword) ==>
      e == Some(Fail("All password fields are required", 400))
    ensures Present(oldPassword) && Present(newPassword) && Present(confirmPassword) ==>
      && (newPassword != confirmPassword ==> e == Some(Fail("New passwords do not match", 400)))
      && (newPassword == confirmPassword && Utf16Length(newPassword.value) < 6 ==>
            e == Some(Fail("Password must be at least 6 characters", 400)))
      && (newPassword == confirmPassword && Utf16Length(newPassword.value) >= 6 ==>
           match FindUserById(users, userId)
           case None => e == Some(Fail("User not found", 404))
           case Some(i) =>
             e == if crypto.compare(oldPassword.value, users[i].passwordHash) then None
                  else Some(Fail("Old password is incorrect", 400)))
  {
    if !Present(oldPassword) || !Present(newPassword) || !Present(confirmPassword) then
      Some(Fail("All password fields are required", 400))
    else if newPassword.value != confirmPassword.value then Some(Fail("New passwords do not match", 400))
    else if Utf16Length(newPassword.value) < 6 then Some(Fail("Password must be at least 6 characters", 400))
    else match FindUserById(users, userId)
      case None => Some(Fail("User not found", 404))
      case Some(i) =>
        if !crypto.compare(oldPassword.value, users[i].passwordHash) then Some(Fail("Old password is incorrect", 400))
        else None
  }

  /**
   * `updatePassword`: after the checks pass, only that user's
   * `password_hash` changes, to the hash of the new password.
   */
  method UpdatePassword(
    db: Store, crypto: Crypto, userId: int,
    oldPassword: Option<string>, newPassword: Option<string>, confirmPassword: Option<string>) returns (r: Reply<()>)
    requires db.Valid()
    modifies db`users
    ensures db.Valid()
    ensures match PasswordChangeRefusal(old(db.users), crypto, userId, oldPassword, newPassword, confirmPassword)
      case Some(reply) => r == reply && db.users == old(db.users)
      case None =>
        var i := FindUserById(old(db.users), userId).value;
        && r == Ok(None, Some("Password updated successfully"))
        && db.users == old(db.users)[i := old(db.users)[i].(passwordHash := crypto.hash(newPassword.value))]
  {
    var refusal := PasswordChangeRefusal(db.users, crypto, userId, oldPassword, newPassword, confirmPassword);
    if refusal.Some? {
      return refusal.value;
    }
    var i := FindUserById(db.users, userId).value;
    db.users := db.users[i := db.users[i].(passwordHash := crypto.hash(newPassword.value))];
    r := Ok(None, Some("Password updated successfully"));
  }

  // ---- getUserInfo ----

  datatype Usage = Usage(numRequests: int, numRequestsTotal: int, numTokens: int, maxRequestUsage: int, maxTokenUsage: int)

  datatype UserInfo = UserInfo(models: seq<Usage>)

  /** `getUserInfo`: one usage summary built from the user's counters. */
  function GetUserInfo(db: Store, userId: int): (r: Reply<UserInfo>)
    reads db
    ensures FindUserById(db.users, userId).None? ==> r == Fail("User not found", 404)
    ensures FindUserById(db.users, userId).Some? ==>
      var u := db.users[FindUserById(db.users, userId).value];
      && r.httpStatus == 200 && r.body.data.Some? && |r.body.data.value.models| == 1
      && r.body.data.value.models[0] == Usage(u.usedCount, u.totalCount, 0, u.totalCount, 0)
  {
    match FindUserById(db.users, userId)
    case None => Fail("User not found", 404)
    case Some(i) =>
      var u := db.users[i];
      Ok(Some(UserInfo([Usage(u.usedCount, u.totalCount, 0, u.totalCount, 0)])), None)
  }

  /** In a consistent database the summary never reports more requests used than granted. */
  lemma SummaryWithinQuota(db: Store, userId: int)
    requires db.Valid()
    requires GetUserInfo(db, userId).body.data.Some?
    ensures var m := GetUserInfo(db, userId).body.data.value.models[0]; m.numRequests <= m.numRequestsTotal
  {
  }
}
