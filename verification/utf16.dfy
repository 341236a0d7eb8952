/**
 * JavaScript strings: sequences of UTF-16 code units (section 6.1.4 of
 * ECMA-262), which may hold a surrogate without its partner. `Scalars` is
 * how an encoder such as `Buffer.from(s, 'utf8')` reads them: a surrogate
 * pair is one code point and a lone surrogate becomes U+FFFD. Dafny's
 * `string` (a sequence of Unicode scalar values) is the result type of
 * `Scalars` and of the ASCII texts the program builds.
 */
module Utf16 {

  /** A UTF-16 code unit. */
  type Unit = u: int | 0 <= u < 0x1_0000

  /** A JavaScript string value. */
  type JsString = seq<Unit>

  predicate IsHighSurrogate(u: Unit) {
    0xD800 <= u < 0xDC00
  }

  predicate IsLowSurrogate(u: Unit) {
    0xDC00 <= u < 0xE000
  }

  predicate IsSurrogate(u: Unit) {
    0xD800 <= u < 0xE000
  }

  /** U+FFFD REPLACEMENT CHARACTER, written in place of a lone surrogate. */
  const REPLACEMENT: char := '\U{FFFD}'

  /** Whether `s` starts with a surrogate pair. */
  predicate StartsWithPair(s: JsString) {
    |s| >= 2 && IsHighSurrogate(s[0]) && IsLowSurrogate(s[1])
  }

  /** The code point of a surrogate pair. */
  function PairScalar(hi: Unit, lo: Unit): (c: char)
    requires IsHighSurrogate(hi) && IsLowSurrogate(lo)
    ensures 0x10000 <= c as int
  {
    (0x10000 + (hi - 0xD800) * 0x400 + (lo - 0xDC00)) as char
  }

  /**
   * The code points of `s` as its UTF-8 encoder reads them: a surrogate pair
   * is one code point, a surrogate without its partner is U+FFFD.
   */
  function Scalars(s: JsString): (r: string)
    ensures |r| <= |s|
    decreases |s|
  {
    if s == [] then []
    else if StartsWithPair(s) then [PairScalar(s[0], s[1])] + Scalars(s[2..])
    else if IsSurrogate(s[0]) then [REPLACEMENT] + Scalars(s[1..])
    else [s[0] as char] + Scalars(s[1..])
  }

  /** `s` holds no surrogate without its partner. */
  predicate WellFormed(s: JsString)
    decreases |s|
  {
    if s == [] then true
    else if StartsWithPair(s) then WellFormed(s[2..])
    else !IsSurrogate(s[0]) && WellFormed(s[1..])
  }

  /** The UTF-16 code units of one code point. */
  function CharUnits(c: char): (r: JsString)
    ensures 1 <= |r| <= 2
  {
    var cp := c as int;
    if cp < 0x10000 then [cp]
    else [0xD800 + (cp - 0x10000) / 0x400, 0xDC00 + (cp - 0x10000) % 0x400]
  }

  /** Code points written as UTF-16. */
  function Utf16(cs: string): JsString {
    if cs == [] then [] else CharUnits(cs[0]) + Utf16(cs[1..])
  }

  lemma PairRoundTrip(hi: Unit, lo: Unit)
    requires IsHighSurrogate(hi) && IsLowSurrogate(lo)
    ensures CharUnits(PairScalar(hi, lo)) == [hi, lo]
  {
    var v := (hi - 0xD800) * 0x400 + (lo - 0xDC00);
    assert PairScalar(hi, lo) as int - 0x10000 == v;
    assert v / 0x400 == hi - 0xD800 && v % 0x400 == lo - 0xDC00;
  }

  /** Writing the code points of a well-formed string as UTF-16 gives the string back. */
  lemma {:induction false} Utf16OfScalars(s: JsString)
    requires WellFormed(s)
    ensures Utf16(Scalars(s)) == s
    decreases |s|
  {
    if s != [] {
      if StartsWithPair(s) {
        PairRoundTrip(s[0], s[1]);
        Utf16OfScalars(s[2..]);
        assert s == [s[0], s[1]] + s[2..];
      } else {
        Utf16OfScalars(s[1..]);
        assert s == [s[0]] + s[1..];
      }
    }
  }

  /** Well-formed strings with the same code points are equal. */
  lemma ScalarsInjective(s: JsString, t: JsString)
    requires WellFormed(s) && WellFormed(t)
    ensures Scalars(s) == Scalars(t) <==> s == t
  {
    Utf16OfScalars(s);
    Utf16OfScalars(t);
  }

  /** A string without surrogates is well formed. */
  lemma {:induction false} NoSurrogateWellFormed(s: JsString)
    requires forall i :: 0 <= i < |s| ==> !IsSurrogate(s[i])
    ensures WellFormed(s)
    decreases |s|
  {
    if s != [] {
      NoSurrogateWellFormed(s[1..]);
    }
  }

  /** A lone high surrogate and U+FFFD are different strings with the same code points. */
  lemma LoneSurrogateReadsAsReplacement(rest: JsString)
    requires rest == [] || !IsLowSurrogate(rest[0])
    ensures [0xD800] + rest != [0xFFFD] + rest
    ensures Scalars([0xD800] + rest) == Scalars([0xFFFD] + rest)
  {
    var a: JsString := [0xD800] + rest;
    var b: JsString := [0xFFFD] + rest;
    assert a[0] != b[0];
    assert !StartsWithPair(a) && !StartsWithPair(b);
    assert a[1..] == rest == b[1..];
  }
}
