/**
 * The JavaScript string operations the request handlers rely on: the
 * `typeof x !== "string"` coercion of body fields, `String.prototype.trim`,
 * the `length` property (UTF-16 code units) and the regular expression
 * `/^[a-zA-Z0-9]+$/`.
 */
module JsText {

  /** A field of a parsed request body: a string, or anything else (absent, an array, an object). */
  datatype JsValue = JsString(s: string) | NotAString

  /** `if (typeof v !== "string") v = ""`. */
  function Coerce(v: JsValue): string
  {
    match v
    case JsString(s) => s
    case NotAString => ""
  }

  /** The WhiteSpace and LineTerminator code points that `trim` removes (ECMAScript 2023, sections 12.2 and 12.3). */
  predicate IsJsWhitespace(c: char)
  {
    var n := c as int;
    || n == 0x09 || n == 0x0A || n == 0x0B || n == 0x0C || n == 0x0D
    || n == 0x20 || n == 0xA0 || n == 0x1680
    || (0x2000 <= n <= 0x200A)
    || n == 0x2028 || n == 0x2029 || n == 0x202F || n == 0x205F
    || n == 0x3000 || n == 0xFEFF
  }

  /** Drops the leading whitespace. */
  function TrimStart(s: string): string
  {
    if s != [] && IsJsWhitespace(s[0]) then TrimStart(s[1..]) else s
  }

  /** Drops the trailing whitespace. */
  function TrimEnd(s: string): string
  {
    if s != [] && IsJsWhitespace(s[|s| - 1]) then TrimEnd(s[..|s| - 1]) else s
  }

  /** `s.trim()`. */
  function Trim(s: string): string
  {
    TrimEnd(TrimStart(s))
  }

  /** `TrimStart` keeps the suffix that begins at the first non-whitespace character. */
  lemma {:induction false} TrimStartShape(s: string)
    ensures |TrimStart(s)| <= |s| && TrimStart(s) == s[|s| - |TrimStart(s)|..]
    ensures forall k :: 0 <= k < |s| - |TrimStart(s)| ==> IsJsWhitespace(s[k])
    ensures TrimStart(s) == [] || !IsJsWhitespace(TrimStart(s)[0])
  {
    if s != [] && IsJsWhitespace(s[0]) {
      TrimStartShape(s[1..]);
    }
  }

  /** `TrimEnd` keeps the prefix that ends at the last non-whitespace character. */
  lemma {:induction false} TrimEndShape(s: string)
    ensures |TrimEnd(s)| <= |s| && TrimEnd(s) == s[..|TrimEnd(s)|]
    ensures forall k :: |TrimEnd(s)| <= k < |s| ==> IsJsWhitespace(s[k])
    ensures TrimEnd(s) == [] || !IsJsWhitespace(TrimEnd(s)[|TrimEnd(s)| - 1])
  {
    if s != [] && IsJsWhitespace(s[|s| - 1]) {
      TrimEndShape(s[..|s| - 1]);
    }
  }

  /**
   * What `trim` keeps: the slice of the input that starts at its first
   * non-whitespace character, with no whitespace at either end.
   */
  lemma TrimKeepsSlice(s: string)
    ensures |Trim(s)| <= |TrimStart(s)| <= |s|
    ensures Trim(s) == s[|s| - |TrimStart(s)|..|s| - |TrimStart(s)| + |Trim(s)|]
    ensures Trim(s) == [] || (!IsJsWhitespace(Trim(s)[0]) && !IsJsWhitespace(Trim(s)[|Trim(s)| - 1]))
  {
    var u := TrimStart(s);
    var t := TrimEnd(u);
    TrimStartShape(s);
    TrimEndShape(u);
    var i := |s| - |u|;
    calc {
      t;
      u[..|t|];
      s[i..][..|t|];
      s[i..i + |t|];
    }
    if t != [] {
      assert t[0] == u[0];
    }
  }

  /** What `trim` cuts away: whitespace only, before and after the slice it keeps. */
  lemma TrimCutsWhitespace(s: string)
    ensures |Trim(s)| <= |TrimStart(s)| <= |s|
    ensures forall k :: 0 <= k < |s| - |TrimStart(s)| ==> IsJsWhitespace(s[k])
    ensures forall k :: |s| - |TrimStart(s)| + |Trim(s)| <= k < |s| ==> IsJsWhitespace(s[k])
  {
    var u := TrimStart(s);
    var t := TrimEnd(u);
    TrimStartShape(s);
    TrimEndShape(u);
    var i := |s| - |u|;
    forall k | i + |t| <= k < |s| ensures IsJsWhitespace(s[k]) {
      assert s[k] == u[k - i];
    }
  }

  /** A trimmed string is empty exactly when the input consists of whitespace only. */
  lemma TrimEmptyIffBlank(s: string)
    ensures Trim(s) == [] <==> forall k :: 0 <= k < |s| ==> IsJsWhitespace(s[k])
  {
    TrimKeepsSlice(s);
    TrimCutsWhitespace(s);
    if Trim(s) != [] {
      assert Trim(s)[0] == s[|s| - |TrimStart(s)|];
    }
  }

  /** Trimming twice is trimming once. */
  lemma TrimIdempotent(s: string)
    ensures Trim(Trim(s)) == Trim(s)
  {
    var t := Trim(s);
    TrimKeepsSlice(s);
    if t != [] {
      assert TrimStart(t) == t;
      assert TrimEnd(t) == t;
    }
  }

  /** `s.length`: UTF-16 code units, two for a code point above U+FFFF. */
  function JsLength(s: string): (n: nat)
    ensures |s| <= n <= 2 * |s|
    ensures n == 0 <==> s == []
  {
    if s == [] then 0
    else (if s[0] as int >= 0x1_0000 then 2 else 1) + JsLength(s[1..])
  }

  /** On text inside the Basic Multilingual Plane, `length` counts characters. */
  lemma {:induction false} JsLengthOfBmp(s: string)
    requires forall k :: 0 <= k < |s| ==> s[k] as int < 0x1_0000
    ensures JsLength(s) == |s|
  {
    if s != [] {
      JsLengthOfBmp(s[1..]);
    }
  }

  predicate IsAsciiAlphanumeric(c: char)
  {
    ('a' <= c <= 'z') || ('A' <= c <= 'Z') || ('0' <= c <= '9')
  }

  /** `/^[a-zA-Z0-9]+$/.test(s)`: one or more ASCII letters and digits, nothing else. */
  predicate MatchesAlphanumeric(s: string)
  {
    |s| > 0 && forall k :: 0 <= k < |s| ==> IsAsciiAlphanumeric(s[k])
  }

  /** A string the regular expression accepts has `length` equal to its number of characters. */
  lemma AlphanumericLength(s: string)
    requires MatchesAlphanumeric(s)
    ensures JsLength(s) == |s|
  {
  }

  /** An alphanumeric string has no whitespace to trim. */
  lemma TrimAlphanumeric(s: string)
    requires MatchesAlphanumeric(s)
    ensures Trim(s) == s
  {
  }
}
