/**
 * The SQLite tables the controllers read and write, as one in-memory
 * `Store`. Each table is a sequence of rows in insertion (rowid) order;
 * each `db.get(... WHERE ...)` becomes a lookup function over a table, and
 * each INSERT or UPDATE an assignment to a table field.
 *
 * Columns that only record audit time (`created_at`, `updated_at` of users,
 * pool accounts and codes) are not modelled; the timestamps the logic reads
 * are, as integer milliseconds.
 */
module Database {
  import opened Common

  datatype User = User(
    id: int, email: string, username: string, passwordHash: string,
    level: int, totalCount: int, usedCount: int, expireTime: Option<int>)

  datatype PoolAccount = PoolAccount(
    id: int, account: string, password: string, token: Option<string>, notes: Option<string>,
    status: int, usageCount: int, distributedTime: Option<int>)

  /** `kind` is the `type` column. */
  datatype ActivationCode = ActivationCode(
    id: int, code: string, kind: string, name: Option<string>, level: int, duration: Option<int>,
    maxUses: int, usedCount: int, quota: Option<int>, notes: Option<string>, status: int,
    expiredAt: Option<int>, activatedAt: Option<int>)

  /** `kind` is the `type` column; `used` is the 0/1 column. */
  datatype VerificationCode = VerificationCode(
    id: int, email: string, code: string, kind: string, expiresAt: int, used: bool, createdAt: int)

  /** The fields `reportBug` serialises into the `description` column. */
  datatype BugDescription = BugDescription(
    apiKey: Option<string>, appVersion: string, osVersion: string, deviceModel: string,
    cursorVersion: string, bugDescription: string, occurrenceTime: string,
    screenshotUrls: seq<string>, severity: string)

  datatype BugReport = BugReport(id: int, description: BugDescription, status: int)

  datatype Article = Article(id: int, title: string, content: string, status: int, createdAt: int)

  /** An announcement as the client receives it (the parsed `value` column of `public_info`). */
  datatype Announcement = Announcement(kind: string, closeable: bool, title: string, description: string, actions: seq<string>)

  datatype PublicInfo = PublicInfo(key: string, value: Option<Announcement>, status: int)

  // ---- table invariants kept by every writing operation ----

  /**
   * User ids and emails are unique (register checks the email before
   * inserting), and no user has consumed more than their quota.
   */
  ghost predicate UsersValid(users: seq<User>) {
    && (forall i, j :: 0 <= i < j < |users| ==> users[i].id != users[j].id && users[i].email != users[j].email)
    && (forall i :: 0 <= i < |users| ==> users[i].usedCount <= users[i].totalCount)
  }

  /** Pool ids and account strings are unique (createAccount checks before inserting). */
  ghost predicate PoolValid(pool: seq<PoolAccount>) {
    forall i, j :: 0 <= i < j < |pool| ==> pool[i].id != pool[j].id && pool[i].account != pool[j].account
  }

  /**
   * A code has been redeemed no more often than it allows (a code created
   * with `max_uses <= 0` is never redeemed), and adds no negative quota.
   */
  predicate WithinLimits(c: ActivationCode) {
    0 <= c.usedCount <= Max(c.maxUses, 0) && (c.quota.None? || c.quota.value >= 0)
  }

  /** Code ids and code strings are unique (createActivationCode checks before inserting). */
  ghost predicate CodesValid(codes: seq<ActivationCode>) {
    && (forall i, j :: 0 <= i < j < |codes| ==> codes[i].id != codes[j].id && codes[i].code != codes[j].code)
    && (forall i :: 0 <= i < |codes| ==> WithinLimits(codes[i]))
  }

  ghost predicate VerificationsValid(rows: seq<VerificationCode>) {
    forall i, j :: 0 <= i < j < |rows| ==> rows[i].id != rows[j].id
  }

  class Store {
    var users: seq<User>
    var pool: seq<PoolAccount>
    var codes: seq<ActivationCode>
    var verifications: seq<VerificationCode>
    var bugReports: seq<BugReport>
    var articles: seq<Article>
    var publicInfo: seq<PublicInfo>

    ghost predicate Valid()
      reads this
    {
      UsersValid(users) && PoolValid(pool) && CodesValid(codes) && VerificationsValid(verifications)
    }

    /** A freshly initialised database: every table empty. */
    constructor ()
      ensures Valid()
      ensures users == [] && pool == [] && codes == [] && verifications == []
      ensures bugReports == [] && articles == [] && publicInfo == []
    {
      users, pool, codes, verifications := [], [], [], [];
      bugReports, articles, publicInfo := [], [], [];
    }
  }

  // ---- queries ----

  /** The first row satisfying `p`, as `db.get` returns it. */
  function First<T>(rows: seq<T>, p: T -> bool): (r: Option<nat>)
    ensures r.Some? ==> r.value < |rows| && p(rows[r.value])
    ensures r.Some? ==> forall j :: 0 <= j < r.value ==> !p(rows[j])
    ensures r.None? <==> forall j :: 0 <= j < |rows| ==> !p(rows[j])
    decreases |rows|
  {
    if |rows| == 0 then None
    else if p(rows[0]) then Some(0)
    else match First(rows[1..], p)
      case None => None
      case Some(k) => Some(k + 1)
  }

  /** The rowid SQLite gives the next inserted row: one more than the largest id. */
  function NextId<T>(rows: seq<T>, id: T -> int): (n: int)
    ensures forall k :: 0 <= k < |rows| ==> id(rows[k]) < n
    decreases |rows|
  {
    if |rows| == 0 then 1
    else Max(NextId(rows[..|rows| - 1], id), id(rows[|rows| - 1]) + 1)
  }

  /** `SELECT ... FROM users WHERE id = ?` */
  function FindUserById(users: seq<User>, id: int): (r: Option<nat>)
    ensures r.Some? ==> r.value < |users| && users[r.value].id == id
    ensures r.None? <==> forall j :: 0 <= j < |users| ==> users[j].id != id
  {
    First(users, (u: User) => u.id == id)
  }

  /** `SELECT ... FROM users WHERE email = ?` */
  function FindUserByEmail(users: seq<User>, email: string): (r: Option<nat>)
    ensures r.Some? ==> r.value < |users| && users[r.value].email == email
    ensures r.None? <==> forall j :: 0 <= j < |users| ==> users[j].email != email
  {
    First(users, (u: User) => u.email == email)
  }

  /** `SELECT * FROM activation_codes WHERE code = ? AND status = 1` */
  function FindActiveCode(codes: seq<ActivationCode>, code: string): (r: Option<nat>)
    ensures r.Some? ==> r.value < |codes| && codes[r.value].code == code && codes[r.value].status == 1
    ensures r.None? <==> forall j :: 0 <= j < |codes| ==> !(codes[j].code == code && codes[j].status == 1)
  {
    First(codes, (c: ActivationCode) => c.code == code && c.status == 1)
  }

  /** `SELECT id FROM activation_codes WHERE code = ?` */
  function FindCode(codes: seq<ActivationCode>, code: string): (r: Option<nat>)
    ensures r.Some? ==> r.value < |codes| && codes[r.value].code == code
    ensures r.None? <==> forall j :: 0 <= j < |codes| ==> codes[j].code != code
  {
    First(codes, (c: ActivationCode) => c.code == code)
  }

  /** `SELECT id FROM accounts_pool WHERE account = ?` */
  function FindAccount(pool: seq<PoolAccount>, account: string): (r: Option<nat>)
    ensures r.Some? ==> r.value < |pool| && pool[r.value].account == account
    ensures r.None? <==> forall j :: 0 <= j < |pool| ==> pool[j].account != account
  {
    First(pool, (a: PoolAccount) => a.account == account)
  }

  /** `SELECT * FROM accounts_pool WHERE account = ? AND status = 1` */
  function FindActiveAccount(pool: seq<PoolAccount>, account: string): (r: Option<nat>)
    ensures r.Some? ==> r.value < |pool| && pool[r.value].account == account && pool[r.value].status == 1
    ensures r.None? <==> forall j :: 0 <= j < |pool| ==> !(pool[j].account == account && pool[j].status == 1)
  {
    First(pool, (a: PoolAccount) => a.account == account && a.status == 1)
  }

  /**
   * `SELECT * FROM accounts_pool WHERE status = 1 ORDER BY usage_count ASC LIMIT 1`:
   * an active account used no more often than any other active account.
   * Among equally used accounts SQLite's choice is unspecified; this one
   * takes the earliest.
   */
  function LeastUsedActive(pool: seq<PoolAccount>): (r: Option<nat>)
    ensures r.Some? ==> r.value < |pool| && pool[r.value].status == 1
    ensures r.Some? ==> forall j :: 0 <= j < |pool| && pool[j].status == 1 ==> pool[r.value].usageCount <= pool[j].usageCount
    ensures r.None? <==> forall j :: 0 <= j < |pool| ==> pool[j].status != 1
    decreases |pool|
  {
    if |pool| == 0 then None
    else
      var rest := LeastUsedActive(pool[..|pool| - 1]);
      var last := pool[|pool| - 1];
      if last.status != 1 then rest
      else if rest.None? || last.usageCount < pool[rest.value].usageCount then Some(|pool| - 1)
      else rest
  }

  function NextUserId(users: seq<User>): (n: int)
    ensures forall k :: 0 <= k < |users| ==> users[k].id < n
  {
    NextId(users, (u: User) => u.id)
  }

  function NextPoolId(pool: seq<PoolAccount>): (n: int)
    ensures forall k :: 0 <= k < |pool| ==> pool[k].id < n
  {
    NextId(pool, (a: PoolAccount) => a.id)
  }

  function NextCodeId(codes: seq<ActivationCode>): (n: int)
    ensures forall k :: 0 <= k < |codes| ==> codes[k].id < n
  {
    NextId(codes, (c: ActivationCode) => c.id)
  }

  function NextVerificationId(rows: seq<VerificationCode>): (n: int)
    ensures forall k :: 0 <= k < |rows| ==> rows[k].id < n
  {
    NextId(rows, (v: VerificationCode) => v.id)
  }

  function NextBugReportId(rows: seq<BugReport>): (n: int)
    ensures forall k :: 0 <= k < |rows| ==> rows[k].id < n
  {
    NextId(rows, (b: BugReport) => b.id)
  }

  /**
   * With unique ids, `WHERE id = ?` singles out exactly one row: the one the
   * lookup finds. So updating that index is the SQL update.
   */
  lemma IdSinglesOutUser(users: seq<User>, k: nat)
    requires UsersValid(users) && k < |users|
    ensures FindUserById(users, users[k].id) == Some(k)
    ensures FindUserByEmail(users, users[k].email) == Some(k)
  {
  }
}
