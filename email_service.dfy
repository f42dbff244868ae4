/**
 * The verification-code service of server/src/services/emailService.js:
 * issue a short-lived six-digit code bound to an email and a purpose, and
 * consume it at most once. Delivery is only logged by the source and is not
 * modelled.
 */
module EmailService {
  import opened Common
  import opened Database

  // ---- six-digit decimal codes ----

  predicate IsDigit(c: char) {
    '0' <= c <= '9'
  }

  predicate IsDigits(s: string) {
    forall i :: 0 <= i < |s| ==> IsDigit(s[i])
  }

  function DigitChar(d: nat): (c: char)
    requires d < 10
    ensures IsDigit(c) && c as int - '0' as int == d
  {
    ('0' as int + d) as char
  }

  /** `Number.prototype.toString()` of a non-negative integer: its decimal digits, most significant first. */
  function DecimalString(n: nat): (s: string)
    ensures |s| >= 1 && IsDigits(s)
    decreases n
  {
    if n < 10 then [DigitChar(n)] else DecimalString(n / 10) + [DigitChar(n % 10)]
  }

  /** The number a string of decimal digits denotes. */
  function DecimalValue(s: string): nat
    requires IsDigits(s)
    decreases |s|
  {
    if s == [] then 0 else DecimalValue(s[..|s| - 1]) * 10 + (s[|s| - 1] as int - '0' as int)
  }

  /** Reading back the digits of `n` gives `n`. */
  lemma {:induction false} DecimalRoundTrip(n: nat)
    ensures DecimalValue(DecimalString(n)) == n
    decreases n
  {
    var s := DecimalString(n);
    if n >= 10 {
      DecimalRoundTrip(n / 10);
      assert s[..|s| - 1] == DecimalString(n / 10);
    }
  }

  function Pow10(k: nat): (p: nat)
    ensures p >= 1
  {
    if k == 0 then 1 else 10 * Pow10(k - 1)
  }

  /** A number with k + 1 digits prints as k + 1 characters. */
  lemma {:induction false} DecimalLength(n: nat, k: nat)
    requires Pow10(k) <= n < Pow10(k + 1)
    ensures |DecimalString(n)| == k + 1
    decreases k
  {
    if k > 0 {
      assert Pow10(k) == 10 * Pow10(k - 1);
      assert Pow10(k + 1) == 10 * Pow10(k);
      DecimalLength(n / 10, k - 1);
    }
  }

  /** What `generateVerificationCode` can return. */
  predicate IsVerificationCode(s: string) {
    |s| == 6 && IsDigits(s) && 100000 <= DecimalValue(s) <= 999999
  }

  /**
   * `Math.floor(100000 + Math.random() * 900000).toString()`. The random
   * draw is a nondeterministic choice of an integer in 100000..999999.
   */
  method GenerateVerificationCode() returns (code: string)
    ensures IsVerificationCode(code)
  {
    assert 100000 <= 100000 <= 999999;
    var n :| 100000 <= n <= 999999;
    code := DecimalString(n);
    DecimalRoundTrip(n);
    assert Pow10(5) == 100000 && Pow10(6) == 1000000;
    DecimalLength(n, 5);
  }

  // ---- looking codes up ----

  /**
   * `WHERE email = ? AND code = ? AND type = ? AND used = 0`. A missing
   * `code` is bound as NULL and matches no row.
   */
  predicate Matches(row: VerificationCode, email: string, code: Option<string>, kind: string) {
    code.Some? && row.email == email && row.code == code.value && row.kind == kind && !row.used
  }

  /**
   * `... ORDER BY created_at DESC LIMIT 1`: a matching row created no
   * earlier than any other matching row. Rows created in the same second tie,
   * and SQLite's choice among them is unspecified; this one takes the earliest.
   */
  function NewestMatch(rows: seq<VerificationCode>, email: string, code: Option<string>, kind: string): (r: Option<nat>)
    ensures r.Some? ==> r.value < |rows| && Matches(rows[r.value], email, code, kind)
    ensures r.Some? ==> forall j :: 0 <= j < |rows| && Matches(rows[j], email, code, kind) ==>
      rows[j].createdAt <= rows[r.value].createdAt
    ensures r.None? <==> forall j :: 0 <= j < |rows| ==> !Matches(rows[j], email, code, kind)
    decreases |rows|
  {
    if |rows| == 0 then None
    else
      var rest := NewestMatch(rows[..|rows| - 1], email, code, kind);
      var last := rows[|rows| - 1];
      if !Matches(last, email, code, kind) then rest
      else if rest.None? || rows[rest.value].createdAt < last.createdAt then Some(|rows| - 1)
      else rest
  }

  datatype Verification = Valid | Invalid(error: string)

  /** The answer of `verifyCode(email, code, type)` at the instant `now`. */
  function Check(rows: seq<VerificationCode>, email: string, code: Option<string>, kind: string, now: int): (v: Verification)
    ensures NewestMatch(rows, email, code, kind).None? ==> v == Invalid("Invalid or expired verification code")
    ensures v.Valid? <==> var m := NewestMatch(rows, email, code, kind); m.Some? && rows[m.value].expiresAt >= now
    ensures v.Invalid? && NewestMatch(rows, email, code, kind).Some? ==> v == Invalid("Verification code has expired")
  {
    match NewestMatch(rows, email, code, kind)
    case None => Invalid("Invalid or expired verification code")
    case Some(i) =>
      if rows[i].expiresAt < now then Invalid("Verification code has expired") else Valid
  }

  /**
   * The table after `verifyCode`: on success exactly the chosen row is marked
   * used; on either failure nothing changes (an expired row stays unused).
   */
  function AfterCheck(rows: seq<VerificationCode>, email: string, code: Option<string>, kind: string, now: int): (r: seq<VerificationCode>)
    ensures |r| == |rows|
    ensures Check(rows, email, code, kind, now).Invalid? ==> r == rows
    ensures Check(rows, email, code, kind, now).Valid? ==>
      var i := NewestMatch(rows, email, code, kind).value;
      r[i] == rows[i].(used := true) && forall j :: 0 <= j < |rows| && j != i ==> r[j] == rows[j]
  {
    match Check(rows, email, code, kind, now)
    case Invalid(_) => rows
    case Valid =>
      var i := NewestMatch(rows, email, code, kind).value;
      rows[i := rows[i].(used := true)]
  }

  // ---- consuming at most once ----

  /** How many rows a verification of (email, code, kind) could still consume. */
  function Outstanding(rows: seq<VerificationCode>, email: string, code: Option<string>, kind: string): nat
    decreases |rows|
  {
    if rows == [] then 0
    else (if Matches(rows[0], email, code, kind) then 1 else 0) + Outstanding(rows[1..], email, code, kind)
  }

  lemma {:induction false} NoneOutstanding(rows: seq<VerificationCode>, email: string, code: Option<string>, kind: string)
    ensures Outstanding(rows, email, code, kind) == 0 <==> forall j :: 0 <= j < |rows| ==> !Matches(rows[j], email, code, kind)
    decreases |rows|
  {
    if rows != [] {
      NoneOutstanding(rows[1..], email, code, kind);
      assert forall j :: 1 <= j < |rows| ==> rows[j] == rows[1..][j - 1];
    }
  }

  lemma {:induction false} MarkingUsedConsumesOne(rows: seq<VerificationCode>, i: nat, email: string, code: Option<string>, kind: string)
    requires i < |rows| && Matches(rows[i], email, code, kind)
    ensures Outstanding(rows[i := rows[i].(used := true)], email, code, kind) == Outstanding(rows, email, code, kind) - 1
    decreases |rows|
  {
    var after := rows[i := rows[i].(used := true)];
    if i == 0 {
      assert after[1..] == rows[1..];
    } else {
      MarkingUsedConsumesOne(rows[1..], i - 1, email, code, kind);
      assert after[1..] == rows[1..][i - 1 := rows[i].(used := true)];
    }
  }

  /**
   * Each successful verification consumes exactly one outstanding row, and
   * once none is outstanding every later verification of the same triple
   * fails, at any instant. So n identical codes verify at most n times.
   */
  lemma VerifiesAtMostOnce(rows: seq<VerificationCode>, email: string, code: Option<string>, kind: string, now: int, later: int)
    requires Check(rows, email, code, kind, now).Valid?
    ensures Outstanding(AfterCheck(rows, email, code, kind, now), email, code, kind) == Outstanding(rows, email, code, kind) - 1
    ensures Outstanding(rows, email, code, kind) == 1 ==>
      Check(AfterCheck(rows, email, code, kind, now), email, code, kind, later) == Invalid("Invalid or expired verification code")
  {
    var i := NewestMatch(rows, email, code, kind).value;
    MarkingUsedConsumesOne(rows, i, email, code, kind);
    var after := AfterCheck(rows, email, code, kind, now);
    assert after == rows[i := rows[i].(used := true)];
    NoneOutstanding(after, email, code, kind);
  }

  // ---- the service operations ----

  const DefaultKind: string := "register"

  /**
   * `sendVerificationCode(email, type = 'register')`: store a fresh unused
   * code valid for ten minutes and return it.
   */
  method SendVerificationCode(db: Store, email: string, kind: Option<string>, now: int) returns (code: string)
    requires db.Valid()
    modifies db`verifications
    ensures db.Valid()
    ensures IsVerificationCode(code)
    ensures db.verifications == old(db.verifications) + [VerificationCode(
      NextVerificationId(old(db.verifications)), email, code, kind.GetOr(DefaultKind),
      now + MsPerTenMinutes, false, SqliteNow(now))]
  {
    code := GenerateVerificationCode();
    var row := VerificationCode(NextVerificationId(db.verifications), email, code, kind.GetOr(DefaultKind),
      now + MsPerTenMinutes, false, SqliteNow(now));
    db.verifications := db.verifications + [row];
  }

  /** `verifyCode(email, code, type)` at the instant `now`. */
  method VerifyCode(db: Store, email: string, code: Option<string>, kind: string, now: int) returns (v: Verification)
    requires db.Valid()
    modifies db`verifications
    ensures db.Valid()
    ensures v == Check(old(db.verifications), email, code, kind, now)
    ensures db.verifications == AfterCheck(old(db.verifications), email, code, kind, now)
  {
    var newest := NewestMatch(db.verifications, email, code, kind);
    if newest.None? {
      return Invalid("Invalid or expired verification code");
    }
    var row := db.verifications[newest.value];
    if row.expiresAt < now {
      return Invalid("Verification code has expired");
    }
    db.verifications := db.verifications[newest.value := row.(used := true)];
    v := Valid;
  }
}
