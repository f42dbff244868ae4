/**
 * Small vocabulary shared by every module: optional values, JavaScript's
 * notion of a "present" (truthy) string, `String.prototype.trim`, and the
 * clock arithmetic the controllers use. All instants are integer
 * milliseconds since the epoch.
 */
module Common {

  datatype Option<T> = None | Some(value: T) {
    function GetOr(default: T): T {
      match this
      case Some(v) => v
      case None => default
    }
  }

  /** `!!s` for a request field: undefined, null and '' are all falsy. */
  predicate Present(s: Option<string>) {
    s.Some? && s.value != ""
  }

  /** `a || b` on two request fields: the first when it is truthy, else the second. */
  function OrElse(a: Option<string>, b: Option<string>): (r: Option<string>)
    ensures Present(a) ==> r == a
    ensures !Present(a) ==> r == b
    ensures Present(r) <==> Present(a) || Present(b)
  {
    if Present(a) then a else b
  }

  /**
   * `s.length` in JavaScript: the number of UTF-16 code units, where a
   * character above U+FFFF takes a surrogate pair.
   */
  function Utf16Length(s: string): (n: nat)
    ensures |s| <= n <= 2 * |s|
    ensures n == |s| <==> forall i :: 0 <= i < |s| ==> s[i] < '\U{10000}'
    decreases |s|
  {
    if s == [] then 0
    else
      assert forall i :: 0 < i < |s| ==> s[i] == s[1..][i - 1];
      (if s[0] < '\U{10000}' then 1 else 2) + Utf16Length(s[1..])
  }

  function Max(a: int, b: int): int {
    if a < b then b else a
  }

  /** 24 * 60 * 60 * 1000 */
  const MsPerDay: int := 86400000

  /** 10 * 60 * 1000 */
  const MsPerTenMinutes: int := 600000

  /**
   * What SQLite's `datetime('now')` and `CURRENT_TIMESTAMP` record for the
   * instant `now`: the same instant with its milliseconds dropped.
   */
  function SqliteNow(now: int): (t: int)
    ensures t <= now < t + 1000
    ensures t % 1000 == 0
  {
    now - now % 1000
  }

  /**
   * The characters matched by `\s` in a JavaScript regular expression, which
   * are also the characters `trim` removes (WhiteSpace and LineTerminator of
   * ECMAScript).
   */
  predicate IsWhitespace(c: char) {
    || c == '\t' || c == '\n' || c == '\U{000B}' || c == '\U{000C}' || c == '\r'
    || c == ' ' || c == '\U{00A0}' || c == '\U{1680}'
    || ('\U{2000}' <= c <= '\U{200A}')
    || c == '\U{2028}' || c == '\U{2029}' || c == '\U{202F}' || c == '\U{205F}'
    || c == '\U{3000}' || c == '\U{FEFF}'
  }

  predicate AllWhitespace(s: string) {
    forall i :: 0 <= i < |s| ==> IsWhitespace(s[i])
  }

  function TrimStart(s: string): (r: string)
    ensures |r| <= |s| && r == s[|s| - |r|..]
    ensures r == "" || !IsWhitespace(r[0])
    ensures AllWhitespace(s[..|s| - |r|])
  {
    if s != [] && IsWhitespace(s[0]) then
      var t := s[1..];
      var r := TrimStart(t);
      var lead, rest := s[..|s| - |r|], t[..|t| - |r|];
      assert AllWhitespace(lead) by {
        forall i | 0 <= i < |lead| ensures IsWhitespace(lead[i]) {
          if i > 0 { assert lead[i] == rest[i - 1]; }
        }
      }
      r
    else s
  }

  function TrimEnd(s: string): (r: string)
    ensures |r| <= |s| && r == s[..|r|]
    ensures r == "" || !IsWhitespace(r[|r| - 1])
    ensures AllWhitespace(s[|r|..])
  {
    if s != [] && IsWhitespace(s[|s| - 1]) then
      var t := s[..|s| - 1];
      var r := TrimEnd(t);
      var trail, rest := s[|r|..], t[|r|..];
      assert AllWhitespace(trail) by {
        forall i | 0 <= i < |trail| ensures IsWhitespace(trail[i]) {
          if i < |rest| { assert trail[i] == rest[i]; }
        }
      }
      r
    else s
  }

  /** `String.prototype.trim`. */
  function Trim(s: string): (r: string)
    ensures r == "" || (!IsWhitespace(r[0]) && !IsWhitespace(r[|r| - 1]))
    ensures exists i, j :: 0 <= i <= j <= |s| && r == s[i..j] && AllWhitespace(s[..i]) && AllWhitespace(s[j..])
  {
    var t := TrimStart(s);
    var r := TrimEnd(t);
    TrimmedIsSlice(s, t, r);
    r
  }

  /** Cutting a whitespace prefix and then a whitespace suffix leaves a slice flanked by whitespace. */
  lemma TrimmedIsSlice(s: string, t: string, r: string)
    requires |t| <= |s| && t == s[|s| - |t|..] && AllWhitespace(s[..|s| - |t|])
    requires |r| <= |t| && r == t[..|r|] && AllWhitespace(t[|r|..])
    ensures exists i, j :: 0 <= i <= j <= |s| && r == s[i..j] && AllWhitespace(s[..i]) && AllWhitespace(s[j..])
  {
    var i, j := |s| - |t|, |s| - |t| + |r|;
    assert r == s[i..j];
    assert s[j..] == t[|r|..];
  }

  /**
   * A string trims to nothing exactly when every character in it is
   * whitespace; otherwise its trimmed form is a slice of it.
   */
  lemma TrimEmptyIffBlank(s: string)
    ensures Trim(s) == "" <==> AllWhitespace(s)
    ensures Trim(s) != "" ==> exists i, j :: 0 <= i < j <= |s| && Trim(s) == s[i..j]
  {
    var t := TrimStart(s);
    var k := |s| - |t|;
    var r := TrimEnd(t);
    if r == "" {
      // the leading run already covers all of s
      assert t == [];
      assert s[..k] == s;
    } else {
      assert t[0] == r[0];
      assert s[k] == t[0];
      assert r == s[k..k + |r|];
    }
  }
}
