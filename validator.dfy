/**
 * Request validation of server/src/middleware/validator.js: three predicates
 * and two middlewares that either pass the request on (`next()`) or answer
 * 400 with their own body `{status: false, msg, code: 400}`, which is not
 * the envelope of response.js.
 */
module Validator {
  import opened Common

  // ---- validateEmail: /^[^\s@]+@[^\s@]+\.[^\s@]+$/ ----

  /** A character of the class `[^\s@]`. */
  predicate Plain(c: char) {
    !IsWhitespace(c) && c != '@'
  }

  /** `[^\s@]+` */
  predicate PlainRun(s: string) {
    |s| > 0 && forall k :: 0 <= k < |s| ==> Plain(s[k])
  }

  /**
   * The regular expression read literally: the string splits into a plain
   * run, '@', a plain run, '.', and a plain run.
   */
  ghost predicate MatchesEmailPattern(s: string) {
    exists i, j :: 0 < i < j < |s| && s[i] == '@' && s[j] == '.'
      && PlainRun(s[..i]) && PlainRun(s[i + 1..j]) && PlainRun(s[j + 1..])
  }

  /**
   * `validateEmail`: no whitespace and exactly one '@' (every other position
   * is plain), a non-empty local part, and a '.' in the domain with at least
   * one character on each side of it.
   */
  predicate ValidEmail(s: string) {
    exists i :: 0 < i < |s| && s[i] == '@'
      && (forall k :: 0 <= k < |s| && k != i ==> Plain(s[k]))
      && (exists j :: i + 1 < j < |s| - 1 && s[j] == '.')
  }

  /** The executable test and the regular expression accept the same strings. */
  lemma ValidEmailIsPattern(s: string)
    ensures ValidEmail(s) <==> MatchesEmailPattern(s)
  {
    if ValidEmail(s) {
      var i :| 0 < i < |s| && s[i] == '@'
        && (forall k :: 0 <= k < |s| && k != i ==> Plain(s[k]))
        && (exists j :: i + 1 < j < |s| - 1 && s[j] == '.');
      var j :| i + 1 < j < |s| - 1 && s[j] == '.';
      SplitIsPattern(s, i, j);
    }
    if MatchesEmailPattern(s) {
      var i, j :| 0 < i < j < |s| && s[i] == '@' && s[j] == '.'
        && PlainRun(s[..i]) && PlainRun(s[i + 1..j]) && PlainRun(s[j + 1..]);
      PatternIsSplit(s, i, j);
    }
  }

  lemma SplitIsPattern(s: string, i: int, j: int)
    requires 0 < i && i + 1 < j < |s| - 1 && s[i] == '@' && s[j] == '.'
    requires forall k :: 0 <= k < |s| && k != i ==> Plain(s[k])
    ensures PlainRun(s[..i]) && PlainRun(s[i + 1..j]) && PlainRun(s[j + 1..])
  {
    var local, mid, top := s[..i], s[i + 1..j], s[j + 1..];
    assert forall k :: 0 <= k < |local| ==> local[k] == s[k];
    assert forall k :: 0 <= k < |mid| ==> mid[k] == s[i + 1 + k];
    assert forall k :: 0 <= k < |top| ==> top[k] == s[j + 1 + k];
  }

  lemma PatternIsSplit(s: string, i: int, j: int)
    requires 0 < i < j < |s| && s[i] == '@' && s[j] == '.'
    requires PlainRun(s[..i]) && PlainRun(s[i + 1..j]) && PlainRun(s[j + 1..])
    ensures i + 1 < j < |s| - 1
    ensures forall k :: 0 <= k < |s| && k != i ==> Plain(s[k])
  {
    forall k | 0 <= k < |s| && k != i ensures Plain(s[k]) {
      if k < i {
        assert s[k] == s[..i][k];
      } else if k < j {
        assert s[k] == s[i + 1..j][k - i - 1];
      } else if k > j {
        assert s[k] == s[j + 1..][k - j - 1];
      }
    }
  }

  /** `validatePassword`: present and `.length >= 6`, counted in UTF-16 code units. */
  predicate ValidPassword(p: Option<string>) {
    Present(p) && Utf16Length(p.value) >= 6
  }

  /** `validateUsername`: present and `.length` between 3 and 20, counted in UTF-16 code units. */
  predicate ValidUsername(u: Option<string>) {
    Present(u) && 3 <= Utf16Length(u.value) <= 20
  }

  // ---- the two middlewares ----

  datatype RejectBody = RejectBody(status: bool, msg: string, code: int)

  /** `next()`, or `res.status(400).json({status: false, msg, code: 400})`. */
  datatype Verdict = Next | Reject(httpStatus: int, body: RejectBody)

  function Reject400(msg: string): Verdict {
    Reject(400, RejectBody(false, msg, 400))
  }

  /** `validateEmailMiddleware` on `req.body.email`. */
  function CheckEmail(email: Option<string>): (v: Verdict)
    ensures v.Next? <==> Present(email) && ValidEmail(email.value)
    ensures !Present(email) ==> v == Reject400("Email is required")
    ensures Present(email) && !ValidEmail(email.value) ==> v == Reject400("Invalid email format")
  {
    if !Present(email) then Reject400("Email is required")
    else if !ValidEmail(email.value) then Reject400("Invalid email format")
    else Next
  }

  /** `validateRegistrationMiddleware` on `req.body.email` and `req.body.password`. */
  function CheckRegistration(email: Option<string>, password: Option<string>): (v: Verdict)
    ensures v.Next? <==> Present(email) && ValidEmail(email.value) && ValidPassword(password)
    ensures !Present(email) || !Present(password) ==> v == Reject400("Email and password are required")
    ensures Present(email) && Present(password) && !ValidEmail(email.value) ==>
      v == Reject400("Invalid email format")
    ensures Present(email) && Present(password) && ValidEmail(email.value) && !ValidPassword(password) ==>
      v == Reject400("Password must be at least 6 characters")
  {
    if !Present(email) || !Present(password) then Reject400("Email and password are required")
    else if !ValidEmail(email.value) then Reject400("Invalid email format")
    else if !ValidPassword(password) then Reject400("Password must be at least 6 characters")
    else Next
  }

  /** Every rejection of either middleware is an HTTP 400 whose body says `status: false, code: 400`. */
  lemma RejectionsAreUniform(email: Option<string>, password: Option<string>)
    ensures CheckEmail(email).Reject? ==>
      CheckEmail(email).httpStatus == 400 && !CheckEmail(email).body.status && CheckEmail(email).body.code == 400
    ensures CheckRegistration(email, password).Reject? ==>
      CheckRegistration(email, password).httpStatus == 400 && CheckRegistration(email, password).body.code == 400
      && !CheckRegistration(email, password).body.status
  {
  }

  /** A well-formed address is accepted whatever comes before or after it in the chain. */
  lemma AcceptsSimpleAddress()
    ensures ValidEmail("a@b.c")
    ensures !ValidEmail("a@b") && !ValidEmail("@b.c") && !ValidEmail("a@@b.c") && !ValidEmail("a b@c.d")
  {
    assert "a@b.c"[1] == '@' && "a@b.c"[3] == '.';
    assert "a@@b.c"[1] == '@' && "a@@b.c"[2] == '@';
    assert "a b@c.d"[1] == ' ';
  }

  /**
   * `.length` counts a character above U+FFFF twice: three emoji make a
   * password of length 6, which is accepted, while two make one of length 4.
   */
  lemma AstralCharactersCountTwice()
    ensures CheckRegistration(Some("a@b.c"), Some("\U{1F600}\U{1F600}\U{1F600}")) == Next
    ensures CheckRegistration(Some("a@b.c"), Some("\U{1F600}\U{1F600}")) == Reject400("Password must be at least 6 characters")
  {
    AcceptsSimpleAddress();
    assert Utf16Length("\U{1F600}\U{1F600}\U{1F600}") == 6 by {
      assert "\U{1F600}\U{1F600}\U{1F600}"[1..] == "\U{1F600}\U{1F600}";
      assert "\U{1F600}\U{1F600}"[1..] == "\U{1F600}";
      assert "\U{1F600}"[1..] == "";
    }
    assert Utf16Length("\U{1F600}\U{1F600}") == 4 by {
      assert "\U{1F600}\U{1F600}"[1..] == "\U{1F600}";
      assert "\U{1F600}"[1..] == "";
    }
  }
}
