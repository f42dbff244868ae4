/**
 * `getAccount` of server/src/controllers/accountPoolController.js: hand an
 * entitled user one pool account, charging one request of their quota and
 * counting one more use of the account. Behind `authenticate`, so `userId`
 * is the id from a verified session token.
 */
module AccountPoolController {
  import opened Common
  import opened ApiResponse
  import opened Database

  /** `account_info` of the reply; the audit columns `create_time`/`update_time` are not modelled. */
  datatype AccountInfo = AccountInfo(
    id: int, account: string, password: string, token: string,
    usageCount: int, status: int, distributedTime: int)

  /** The reply's data: `{success: true, account_info, activation_code: null}`. */
  datatype Distribution = Distribution(success: bool, accountInfo: AccountInfo, activationCode: Option<string>)

  /**
   * Not expired: an expiry is recorded and `now` is not after it. The
   * expiry is read through SQLite's `datetime()`, which drops the
   * milliseconds; a missing expiry counts as expired.
   */
  predicate Entitled(u: User, now: int) {
    u.expireTime.Some? && !(now > SqliteNow(u.expireTime.value))
  }

  /** The account a request names (any truthy `account` query parameter), else the least used active one. */
  function Selected(pool: seq<PoolAccount>, requested: Option<string>): Option<nat> {
    if Present(requested) then FindActiveAccount(pool, requested.value) else LeastUsedActive(pool)
  }

  datatype Decision = Refuse(reply: Reply<Distribution>) | Grant(userIndex: nat, accountIndex: nat)

  /** The checks `getAccount` makes before its transaction, in source order. */
  function DistributionDecision(users: seq<User>, pool: seq<PoolAccount>, userId: int, requested: Option<string>, now: int): (d: Decision)
    ensures FindUserById(users, userId).None? ==> d == Refuse(Fail("User not found", 404))
    ensures FindUserById(users, userId).Some? ==>
      var u := users[FindUserById(users, userId).value];
      && (!Entitled(u, now) ==> d == Refuse(Fail("Account expired", 403)))
      && (Entitled(u, now) && u.usedCount >= u.totalCount ==> d == Refuse(Fail("Quota exceeded", 403)))
      && (Entitled(u, now) && u.usedCount < u.totalCount && Selected(pool, requested).None? ==>
            d == Refuse(Fail("No available accounts in pool", 404)))
    ensures d.Grant? <==>
      && FindUserById(users, userId).Some?
      && Entitled(users[FindUserById(users, userId).value], now)
      && users[FindUserById(users, userId).value].usedCount < users[FindUserById(users, userId).value].totalCount
      && Selected(pool, requested).Some?
    ensures d.Grant? ==>
      && d.userIndex < |users| && users[d.userIndex].id == userId
      && users[d.userIndex].usedCount < users[d.userIndex].totalCount
      && d.accountIndex < |pool| && pool[d.accountIndex].status == 1
      && (Present(requested) ==> pool[d.accountIndex].account == requested.value)
      && (!Present(requested) ==> forall j :: 0 <= j < |pool| && pool[j].status == 1 ==>
            pool[d.accountIndex].usageCount <= pool[j].usageCount)
  {
    match FindUserById(users, userId)
    case None => Refuse(Fail("User not found", 404))
    case Some(ui) =>
      var u := users[ui];
      if !Entitled(u, now) then Refuse(Fail("Account expired", 403))
      else if u.usedCount >= u.totalCount then Refuse(Fail("Quota exceeded", 403))
      else match Selected(pool, requested)
        case None => Refuse(Fail("No available accounts in pool", 404))
        case Some(ai) => Grant(ui, ai)
  }

  /** The pool row after being handed out: one more use, stamped with the distribution time. */
  function Dispensed(a: PoolAccount, now: int): (r: PoolAccount)
    ensures r.(usageCount := a.usageCount, distributedTime := a.distributedTime) == a
    ensures r.usageCount == a.usageCount + 1 && r.distributedTime == Some(SqliteNow(now))
  {
    a.(usageCount := a.usageCount + 1, distributedTime := Some(SqliteNow(now)))
  }

  /** The user row after being served: one more request consumed, nothing else. */
  function Charged(u: User): (r: User)
    ensures r.(usedCount := u.usedCount) == u && r.usedCount == u.usedCount + 1
  {
    u.(usedCount := u.usedCount + 1)
  }

  /** What the client is told about the account; a missing or empty token is sent as "". */
  function Describe(a: PoolAccount, now: int): (info: AccountInfo)
    ensures info.id == a.id && info.account == a.account && info.password == a.password
    ensures info.token == (if Present(a.token) then a.token.value else "")
    ensures info.usageCount == a.usageCount + 1 && info.status == a.status && info.distributedTime == now
  {
    AccountInfo(a.id, a.account, a.password, if a.token.Some? then a.token.value else "",
      a.usageCount + 1, a.status, now)
  }

  /**
   * Serving a user keeps every table invariant; in particular the charged
   * user still has consumed no more than their quota.
   */
  lemma {:induction false} GrantKeepsInvariants(users: seq<User>, pool: seq<PoolAccount>, ui: nat, ai: nat, now: int)
    requires UsersValid(users) && PoolValid(pool)
    requires ui < |users| && ai < |pool| && users[ui].usedCount < users[ui].totalCount
    ensures UsersValid(users[ui := Charged(users[ui])])
    ensures PoolValid(pool[ai := Dispensed(pool[ai], now)])
  {
    var users' := users[ui := Charged(users[ui])];
    assert forall i :: 0 <= i < |users'| ==> users'[i].usedCount <= users'[i].totalCount;
    assert forall i :: 0 <= i < |users'| ==> users'[i].id == users[i].id && users'[i].email == users[i].email;
    var pool' := pool[ai := Dispensed(pool[ai], now)];
    assert forall i :: 0 <= i < |pool'| ==> pool'[i].id == pool[i].id && pool'[i].account == pool[i].account;
  }

  /**
   * `getAccount`. Refusals leave both tables as they were; a grant
   * updates the account row and the user row in one transaction.
   */
  method GetAccount(db: Store, userId: int, requested: Option<string>, now: int) returns (r: Reply<Distribution>)
    requires db.Valid()
    modifies db`users, db`pool
    ensures db.Valid()
    ensures match DistributionDecision(old(db.users), old(db.pool), userId, requested, now)
      case Refuse(reply) => r == reply && db.users == old(db.users) && db.pool == old(db.pool)
      case Grant(ui, ai) =>
        && r == Ok(Some(Distribution(true, Describe(old(db.pool)[ai], now), None)), None)
        && db.pool == old(db.pool)[ai := Dispensed(old(db.pool)[ai], now)]
        && db.users == old(db.users)[ui := Charged(old(db.users)[ui])]
  {
    var found := FindUserById(db.users, userId);
    if found.None? {
      return Fail("User not found", 404);
    }
    var ui := found.value;
    var user := db.users[ui];
    if !Entitled(user, now) {
      return Fail("Account expired", 403);
    }
    if user.usedCount >= user.totalCount {
      return Fail("Quota exceeded", 403);
    }
    var selected;
    if Present(requested) {
      selected := FindActiveAccount(db.pool, requested.value);
    } else {
      selected := LeastUsedActive(db.pool);
    }
    if selected.None? {
      return Fail("No available accounts in pool", 404);
    }
    var ai := selected.value;
    var account := db.pool[ai];
    GrantKeepsInvariants(db.users, db.pool, ui, ai, now);
    // BEGIN TRANSACTION; UPDATE accounts_pool ...; UPDATE users ...; COMMIT
    db.pool, db.users := db.pool[ai := Dispensed(account, now)], db.users[ui := Charged(user)];
    r := Ok(Some(Distribution(true, Describe(account, now), None)), None);
  }

  /**
   * A user fresh from registration (no quota yet) is always refused with
   * 403, whichever account is asked for: registration alone grants nothing.
   */
  lemma NewUserIsRefused(users: seq<User>, pool: seq<PoolAccount>, userId: int, requested: Option<string>, now: int)
    requires FindUserById(users, userId).Some?
    requires users[FindUserById(users, userId).value].totalCount == 0
    requires users[FindUserById(users, userId).value].usedCount == 0
    ensures DistributionDecision(users, pool, userId, requested, now).Refuse?
    ensures DistributionDecision(users, pool, userId, requested, now).reply.httpStatus == 403
  {
  }

  /**
   * `getAccount` replayed for one user over successive requests at time
   * `now`, each a grant or a refusal as the decision says, with the tables
   * updated after every grant; the result is the number of grants.
   */
  function Grants(users: seq<User>, pool: seq<PoolAccount>, userId: int, requests: seq<Option<string>>, now: int): nat
    decreases |requests|
  {
    if requests == [] then 0
    else match DistributionDecision(users, pool, userId, requests[0], now)
      case Refuse(_) => Grants(users, pool, userId, requests[1..], now)
      case Grant(ui, ai) =>
        1 + Grants(users[ui := Charged(users[ui])], pool[ai := Dispensed(pool[ai], now)], userId, requests[1..], now)
  }

  /**
   * From any state, a user whose `total_count - used_count` is `n` receives
   * at most `n` accounts, however many requests they make and whichever
   * accounts they ask for, until an activation raises the quota; an
   * unknown user receives none.
   */
  lemma {:induction false} QuotaBoundsGrants(
    users: seq<User>, pool: seq<PoolAccount>, userId: int, requests: seq<Option<string>>, now: int)
    requires UsersValid(users) && PoolValid(pool)
    ensures FindUserById(users, userId).None? ==> Grants(users, pool, userId, requests, now) == 0
    ensures FindUserById(users, userId).Some? ==>
      var u := users[FindUserById(users, userId).value];
      Grants(users, pool, userId, requests, now) <= u.totalCount - u.usedCount
    decreases |requests|
  {
    if requests != [] {
      match DistributionDecision(users, pool, userId, requests[0], now)
      case Refuse(_) =>
        QuotaBoundsGrants(users, pool, userId, requests[1..], now);
      case Grant(ui, ai) =>
        GrantKeepsInvariants(users, pool, ui, ai, now);
        var users', pool' := users[ui := Charged(users[ui])], pool[ai := Dispensed(pool[ai], now)];
        IdSinglesOutUser(users', ui);
        QuotaBoundsGrants(users', pool', userId, requests[1..], now);
    }
  }
}
