/**
 * The administrator endpoints of server/src/controllers/adminController.js:
 * the API-key gate and the creation of pool accounts and activation codes.
 * `adminKey` is the `ADMIN_API_KEY` environment variable, `None` when unset.
 */
module AdminController {
  import opened Common
  import opened ApiResponse
  import opened Database
  import UserController

  // ---- authenticateAdmin ----

  datatype Gate = Pass | Deny(reply: Reply<()>)

  /**
   * `authenticateAdmin`: the key offered is the `x-api-key` header, else the
   * `api_key` query parameter; only the exact configured key passes.
   */
  function AuthenticateAdmin(header: Option<string>, query: Option<string>, adminKey: Option<string>): (g: Gate)
    ensures !Present(OrElse(header, query)) ==> g == Deny(Fail("API key required", 401))
    ensures Present(OrElse(header, query)) && OrElse(header, query) != adminKey ==>
      g == Deny(Fail("Invalid API key", 401))
    ensures g.Pass? <==> Present(OrElse(header, query)) && OrElse(header, query) == adminKey
  {
    var key := OrElse(header, query);
    if !Present(key) then Deny(Fail("API key required", 401))
    else if key != adminKey then Deny(Fail("Invalid API key", 401))
    else Pass
  }

  /** With `ADMIN_API_KEY` unset or empty, no request passes: an empty key is refused before the comparison. */
  lemma UnsetKeyLocksAdmin(header: Option<string>, query: Option<string>, adminKey: Option<string>)
    requires !Present(adminKey)
    ensures AuthenticateAdmin(header, query, adminKey).Deny?
  {
  }

  /** The header wins over the query parameter: a correct header passes whatever the query says. */
  lemma HeaderTakesPrecedence(key: string, query: Option<string>)
    requires key != ""
    ensures AuthenticateAdmin(Some(key), query, Some(key)) == Pass
  {
  }

  /** `x || null`: an absent or empty string is stored as NULL. */
  function NullIfEmpty(s: Option<string>): (r: Option<string>)
    ensures r.Some? <==> Present(s)
    ensures r.Some? ==> r == s
  {
    if Present(s) then s else None
  }

  // ---- createAccount ----

  datatype CreatedAccount = CreatedAccount(id: int, account: string, status: int, createdAt: int, message: string)

  /** The row `createAccount` inserts: active and never used. */
  function NewAccount(pool: seq<PoolAccount>, account: string, password: string, token: Option<string>, notes: Option<string>)
    : (a: PoolAccount)
    ensures forall k :: 0 <= k < |pool| ==> pool[k].id != a.id
    ensures a.account == account && a.password == password && a.token == NullIfEmpty(token) && a.notes == NullIfEmpty(notes)
    ensures a.status == 1 && a.usageCount == 0 && a.distributedTime.None?
  {
    PoolAccount(NextPoolId(pool), account, password, NullIfEmpty(token), NullIfEmpty(notes), 1, 0, None)
  }

  /** The first check `createAccount` fails, if any, in source order. */
  function AccountRefusal(pool: seq<PoolAccount>, account: Option<string>, password: Option<string>): (e: Option<Reply<CreatedAccount>>)
    ensures !Present(account) || !Present(password) ==> e == Some(Fail("Account and password are required", 400))
    ensures Present(account) && Present(password) ==>
      (e.Some? <==> FindAccount(pool, account.value).Some?) && (e.Some? ==> e.value == Fail("Account already exists", 409))
  {
    if !Present(account) || !Present(password) then Some(Fail("Account and password are required", 400))
    else if FindAccount(pool, account.value).Some? then Some(Fail("Account already exists", 409))
    else None
  }

  /** `createAccount`: add a new active account under a name not yet in the pool. */
  method CreateAccount(db: Store, account: Option<string>, password: Option<string>, token: Option<string>, notes: Option<string>, now: int)
    returns (r: Reply<CreatedAccount>)
    requires db.Valid()
    modifies db`pool
    ensures db.Valid()
    ensures AccountRefusal(old(db.pool), account, password).Some? ==>
      r == AccountRefusal(old(db.pool), account, password).value && db.pool == old(db.pool)
    ensures AccountRefusal(old(db.pool), account, password).None? ==>
      var a := NewAccount(old(db.pool), account.value, password.value, token, notes);
      && db.pool == old(db.pool) + [a]
      && r == Ok(Some(CreatedAccount(a.id, account.value, 1, now, "Account created successfully")), None)
  {
    var refusal := AccountRefusal(db.pool, account, password);
    if refusal.Some? {
      return refusal.value;
    }
    var a := NewAccount(db.pool, account.value, password.value, token, notes);
    db.pool := db.pool + [a];
    r := Ok(Some(CreatedAccount(a.id, account.value, 1, now, "Account created successfully")), None);
  }

  /** A newly created account is the one `getAccount` hands out when that account is asked for by name. */
  lemma {:induction false} CreatedAccountIsRequestable(pool: seq<PoolAccount>, a: PoolAccount)
    requires FindAccount(pool, a.account).None? && a.status == 1
    ensures FindActiveAccount(pool + [a], a.account) == Some(|pool|)
  {
    var all := pool + [a];
    assert all[|pool|] == a;
    assert forall k :: 0 <= k < |pool| ==> all[k] == pool[k];
  }

  // ---- createActivationCode ----

  datatype CreatedCode = CreatedCode(
    id: int, code: string, kind: string, level: int, duration: int, maxUses: int, status: int,
    expiredAt: Option<int>, createdAt: int, message: string)

  /**
   * `expired_at`: with a positive duration, `duration` days from now;
   * otherwise the code never expires.
   */
  function CodeExpiry(duration: int, now: int): (t: Option<int>)
    ensures t.Some? <==> duration > 0
    ensures t.Some? ==> t.value > now && t.value - now == duration * MsPerDay
  {
    if duration > 0 then Some(now + duration * MsPerDay) else None
  }

  /** The row `createActivationCode` inserts: active, unused, and without a quota. */
  function NewCode(codes: seq<ActivationCode>, code: string, kind: string, name: Option<string>,
                   level: int, duration: int, maxUses: int, notes: Option<string>, now: int): (c: ActivationCode)
    ensures forall k :: 0 <= k < |codes| ==> codes[k].id != c.id
    ensures c.code == code && c.kind == kind && c.name == NullIfEmpty(name) && c.notes == NullIfEmpty(notes)
    ensures c.level == level && c.duration == Some(duration) && c.maxUses == maxUses
    ensures c.usedCount == 0 && c.quota.None? && c.status == 1 && c.expiredAt == CodeExpiry(duration, now) && c.activatedAt.None?
    ensures WithinLimits(c)
  {
    ActivationCode(NextCodeId(codes), code, kind, NullIfEmpty(name), level, Some(duration), maxUses, 0, None,
      NullIfEmpty(notes), 1, CodeExpiry(duration, now), None)
  }

  /** The first check `createActivationCode` fails, if any, in source order. */
  function CodeRefusal(codes: seq<ActivationCode>, code: Option<string>, kind: Option<string>): (e: Option<Reply<CreatedCode>>)
    ensures !Present(code) || !Present(kind) ==> e == Some(Fail("Code and type are required", 400))
    ensures Present(code) && Present(kind) ==>
      (e.Some? <==> FindCode(codes, code.value).Some?) && (e.Some? ==> e.value == Fail("Activation code already exists", 409))
  {
    if !Present(code) || !Present(kind) then Some(Fail("Code and type are required", 400))
    else if FindCode(codes, code.value).Some? then Some(Fail("Activation code already exists", 409))
    else None
  }

  /**
   * `createActivationCode`. `level`, `duration` and `max_uses` default to
   * 0, 0 and 1 when absent. The random-code branch after the
   * required-fields check can never run (a missing code was refused) and
   * has no counterpart here.
   */
  method CreateActivationCode(db: Store, code: Option<string>, kind: Option<string>, name: Option<string>,
                              level: Option<int>, duration: Option<int>, maxUses: Option<int>,
                              notes: Option<string>, now: int)
    returns (r: Reply<CreatedCode>)
    requires db.Valid()
    modifies db`codes
    ensures db.Valid()
    ensures CodeRefusal(old(db.codes), code, kind).Some? ==>
      r == CodeRefusal(old(db.codes), code, kind).value && db.codes == old(db.codes)
    ensures CodeRefusal(old(db.codes), code, kind).None? ==>
      var c := NewCode(old(db.codes), code.value, kind.value, name, level.GetOr(0), duration.GetOr(0), maxUses.GetOr(1), notes, now);
      && db.codes == old(db.codes) + [c]
      && r == Ok(Some(CreatedCode(c.id, code.value, kind.value, level.GetOr(0), duration.GetOr(0), maxUses.GetOr(1), 1,
                                  c.expiredAt, now, "Activation code created successfully")), None)
  {
    var refusal := CodeRefusal(db.codes, code, kind);
    if refusal.Some? {
      return refusal.value;
    }
    var lvl, days, uses := level.GetOr(0), duration.GetOr(0), maxUses.GetOr(1);
    var c := NewCode(db.codes, code.value, kind.value, name, lvl, days, uses, notes, now);
    db.codes := db.codes + [c];
    r := Ok(Some(CreatedCode(c.id, code.value, kind.value, lvl, days, uses, 1, c.expiredAt, now,
                             "Activation code created successfully")), None);
  }

  /**
   * A newly created code allowing at least one use is found by its string
   * and, up to its expiry, any existing user who submits it exactly is
   * granted the activation.
   */
  lemma {:induction false} CreatedCodeIsRedeemable(
    users: seq<User>, codes: seq<ActivationCode>, c: ActivationCode, userId: int, at: int)
    requires FindCode(codes, c.code).None? && c.status == 1
    requires c.code != "" && Trim(c.code) == c.code
    requires c.usedCount < c.maxUses && (c.expiredAt.None? || at <= c.expiredAt.value)
    requires FindUserById(users, userId).Some?
    ensures FindActiveCode(codes + [c], c.code) == Some(|codes|)
    ensures UserController.ActivationDecision(users, codes + [c], userId, Some(c.code), at)
      == UserController.Grant(FindUserById(users, userId).value, |codes|)
  {
    AppendedCodeIsFound(codes, c);
    TrimEmptyIffBlank(c.code);
    assert UserController.CodeGiven(Some(c.code));
    assert UserController.Redeemable(c, at);
  }

  lemma {:induction false} AppendedCodeIsFound(codes: seq<ActivationCode>, c: ActivationCode)
    requires FindCode(codes, c.code).None? && c.status == 1
    ensures FindActiveCode(codes + [c], c.code) == Some(|codes|)
  {
    var all := codes + [c];
    assert all[|codes|] == c;
    assert forall k :: 0 <= k < |codes| ==> all[k] == codes[k];
  }
}
