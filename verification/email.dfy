/**
 * Identity normalisation and the address check of the one-time-code login
 * flow: `normalizeEmail` and `emailRegex` in functions/index.js.
 *
 * Strings are JavaScript strings, sequences of UTF-16 code units.
 * `String.prototype.trim` and the class `\s` of a regular expression without
 * the `u` flag both use the ECMAScript white-space and line-terminator set,
 * which `IsSpace` lists in full; all of it lies in the Basic Multilingual
 * Plane, so working unit by unit is exact. `toLowerCase` is modelled on ASCII
 * letters only.
 */
module Email {
  import opened Utf16

  /** `Number.MAX_SAFE_INTEGER`, 2^53 - 1. */
  const MAX_SAFE_INTEGER := 0x1F_FFFF_FFFF_FFFF

  /** An integer that a JavaScript Number holds exactly, and prints digit for digit. */
  type SafeInteger = n: int | -MAX_SAFE_INTEGER <= n <= MAX_SAFE_INTEGER

  /** A field of a callable request's `data` object, as the client sent it. */
  datatype Field = Missing | Text(s: JsString) | Number(n: SafeInteger)

  /** ECMAScript WhiteSpace and LineTerminator code points (what `trim` strips and `\s` matches). */
  predicate IsSpace(c: Unit) {
    (0x09 <= c <= 0x0D) || c == 0x20 || c == 0xA0 || c == 0x1680 || (0x2000 <= c <= 0x200A)
    || c == 0x2028 || c == 0x2029 || c == 0x202F || c == 0x205F || c == 0x3000 || c == 0xFEFF
  }

  predicate AllSpace(s: JsString) {
    forall i :: 0 <= i < |s| ==> IsSpace(s[i])
  }

  /** Neither the first nor the last character is white space. */
  predicate NoOuterSpace(s: JsString) {
    s == [] || (!IsSpace(s[0]) && !IsSpace(s[|s| - 1]))
  }

  predicate IsUpper(c: Unit) {
    'A' as int <= c <= 'Z' as int
  }

  predicate NoUpper(s: JsString) {
    forall i :: 0 <= i < |s| ==> !IsUpper(s[i])
  }

  /** Drops the leading white space: what is dropped is all white space, what is kept starts with none. */
  function TrimStart(s: JsString): (r: JsString)
    ensures |r| <= |s| && r == s[|s| - |r|..]
    ensures AllSpace(s[..|s| - |r|])
    ensures r == [] || !IsSpace(r[0])
  {
    if s != [] && IsSpace(s[0]) then TrimStart(s[1..]) else s
  }

  /** Drops the trailing white space: what is dropped is all white space, what is kept ends with none. */
  function TrimEnd(s: JsString): (r: JsString)
    ensures |r| <= |s| && r == s[..|r|]
    ensures AllSpace(s[|r|..])
    ensures r == [] || !IsSpace(r[|r| - 1])
  {
    if s != [] && IsSpace(s[|s| - 1]) then TrimEnd(s[..|s| - 1]) else s
  }

  /** `String.prototype.trim`: the result is the middle of `s` with all-space margins. */
  function Trim(s: JsString): (r: JsString)
    ensures NoOuterSpace(r)
    ensures IsTrimOf(s, r)
  {
    var t := TrimStart(s);
    TrimMargins(s, t, TrimEnd(t));
    TrimEnd(t)
  }

  /** Trimming the end of a suffix of `s` leaves a middle of `s` with all-space margins. */
  lemma TrimMargins(s: JsString, t: JsString, r: JsString)
    requires |t| <= |s| && t == s[|s| - |t|..] && AllSpace(s[..|s| - |t|])
    requires |r| <= |t| && r == t[..|r|] && AllSpace(t[|r|..])
    ensures IsTrimOf(s, r)
  {
    var i := |s| - |t|;
    assert r == s[i..i + |r|];
    assert s[i + |r|..] == t[|r|..];
  }

  /** `r` is `s` with an all-space prefix and an all-space suffix removed. */
  ghost predicate IsTrimOf(s: JsString, r: JsString) {
    exists i :: 0 <= i <= |s| - |r| && r == s[i..i + |r|] && AllSpace(s[..i]) && AllSpace(s[i + |r|..])
  }

  function LowerChar(c: Unit): Unit {
    if IsUpper(c) then c + 32 else c
  }

  /** `String.prototype.toLowerCase`, on ASCII letters. */
  function ToLower(s: JsString): JsString {
    seq(|s|, i requires 0 <= i < |s| => LowerChar(s[i]))
  }

  /**
   * `normalizeEmail`: a non-string becomes the empty string; a string is
   * trimmed and lower-cased.
   */
  function Normalize(email: Field): (r: JsString)
    ensures !email.Text? ==> r == []
    ensures email.Text? ==> |r| <= |email.s| && IsTrimOf(ToLower(email.s), r)
    ensures NoOuterSpace(r) && NoUpper(r)
  {
    match email
    case Text(s) =>
      var t := Trim(s);
      ToLowerFacts(t);
      LowerKeepsTrim(s, t);
      ToLower(t)
    case _ => []
  }

  /** Lower-casing commutes with trimming: it keeps the white space where it is. */
  lemma LowerKeepsTrim(s: JsString, t: JsString)
    requires IsTrimOf(s, t)
    ensures IsTrimOf(ToLower(s), ToLower(t))
  {
    var i :| 0 <= i <= |s| - |t| && t == s[i..i + |t|] && AllSpace(s[..i]) && AllSpace(s[i + |t|..]);
    var j := i + |t|;
    var ls := ToLower(s);
    LowerSlice(s, 0, i);
    LowerSlice(s, i, j);
    LowerSlice(s, j, |s|);
    LowerKeepsSpace(s[..i]);
    LowerKeepsSpace(s[j..]);
    assert s[0..i] == s[..i] && s[j..|s|] == s[j..];
    assert ls[0..i] == ls[..i] && ls[j..|ls|] == ls[j..];
  }

  lemma LowerSlice(s: JsString, a: nat, b: nat)
    requires a <= b <= |s|
    ensures ToLower(s)[a..b] == ToLower(s[a..b])
  {
  }

  lemma LowerKeepsSpace(s: JsString)
    requires AllSpace(s)
    ensures AllSpace(ToLower(s))
  {
    forall k | 0 <= k < |s|
      ensures IsSpace(ToLower(s)[k])
    {
      LowerCharFacts(s[k]);
    }
  }

  lemma LowerCharFacts(c: Unit)
    ensures !IsUpper(LowerChar(c))
    ensures IsSpace(LowerChar(c)) == IsSpace(c)
  {
  }

  /** Lower-casing keeps the length and the white space, and leaves no upper-case letter. */
  lemma ToLowerFacts(s: JsString)
    ensures |ToLower(s)| == |s| && NoUpper(ToLower(s))
    ensures NoOuterSpace(s) ==> NoOuterSpace(ToLower(s))
  {
    var r := ToLower(s);
    forall i | 0 <= i < |s|
      ensures !IsUpper(r[i]) && IsSpace(r[i]) == IsSpace(s[i])
    {
      LowerCharFacts(s[i]);
    }
  }

  /** A string without outer white space is its own trim. */
  lemma TrimNoOuterSpace(s: JsString)
    requires NoOuterSpace(s)
    ensures Trim(s) == s
  {
  }

  /** `normalizeEmail` is idempotent. */
  lemma {:induction false} NormalizeIdempotent(email: Field)
    ensures Normalize(Text(Normalize(email))) == Normalize(email)
  {
    var r := Normalize(email);
    TrimNoOuterSpace(r);
    LowerWithoutUpper(r);
  }

  /** Lower-casing changes nothing in a string without upper-case letters. */
  lemma LowerWithoutUpper(s: JsString)
    requires NoUpper(s)
    ensures ToLower(s) == s
  {
    forall i | 0 <= i < |s|
      ensures ToLower(s)[i] == s[i]
    {
      assert !IsUpper(s[i]);
    }
  }

  // ---------------------------------------------------------------------------
  // emailRegex = /^[^\s@]+@[^\s@]+\.[^\s@]+$/

  /** A character of the class `[^\s@]`. */
  predicate Plain(c: Unit) {
    !IsSpace(c) && c != '@' as int
  }

  /**
   * The language of `emailRegex`, read directly: a non-empty run of plain
   * characters, the `@` at index `at`, a non-empty run of plain characters,
   * the `.` at index `dot`, and a non-empty run of plain characters.
   */
  ghost predicate MatchesEmailRegex(s: JsString) {
    exists at, dot ::
      0 < at && at + 1 < dot && dot + 1 < |s| && s[at] == '@' as int && s[dot] == '.' as int
      && forall k :: 0 <= k < |s| && k != at ==> Plain(s[k])
  }

  /** Index of the first occurrence of `c` in `s`, or `|s|` when there is none. */
  function IndexOf(s: JsString, c: Unit): (i: nat)
    ensures i <= |s|
    ensures i < |s| ==> s[i] == c
    ensures forall k :: 0 <= k < i ==> s[k] != c
  {
    if s == [] then 0
    else if s[0] == c then 0
    else 1 + IndexOf(s[1..], c)
  }

  /** Executable form of `emailRegex.test`: locate the `@`, then look for a `.` inside the domain. */
  predicate IsValidEmail(s: JsString) {
    var at := IndexOf(s, '@' as int);
    && 0 < at && at + 4 <= |s|
    && (forall k :: 0 <= k < |s| && k != at ==> Plain(s[k]))
    && '.' as int in s[at + 2..|s| - 1]
  }

  /** The executable check accepts exactly the language of `emailRegex`. */
  lemma {:induction false} IsValidEmailMatchesRegex(s: JsString)
    ensures IsValidEmail(s) <==> MatchesEmailRegex(s)
  {
    var at := IndexOf(s, '@' as int);
    if IsValidEmail(s) {
      var d :| 0 <= d < |s[at + 2..|s| - 1]| && s[at + 2..|s| - 1][d] == '.' as int;
      var dot := at + 2 + d;
      assert s[dot] == '.' as int;
    }
    if MatchesEmailRegex(s) {
      var a, dot :| 0 < a && a + 1 < dot && dot + 1 < |s| && s[a] == '@' as int && s[dot] == '.' as int
        && forall k :: 0 <= k < |s| && k != a ==> Plain(s[k]);
      assert at == a;
      assert s[at + 2..|s| - 1][dot - at - 2] == '.' as int;
    }
  }

  /** A valid address holds exactly one `@`. */
  lemma ValidEmailHasOneAt(s: JsString)
    requires IsValidEmail(s)
    ensures forall k :: 0 <= k < |s| ==> (s[k] == '@' as int <==> k == IndexOf(s, '@' as int))
  {
  }
}
