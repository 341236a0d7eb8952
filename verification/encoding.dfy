/**
 * The store key of an address (`docIdForEmail` in functions/index.js): the
 * UTF-8 bytes of the address, written in base64 (section 4 of RFC 4648,
 * alphabet of Table 1, `=` padding), then `+` replaced by `-`, `/` by `_`,
 * and the trailing `=` run removed. The result is the URL- and filename-safe
 * alphabet of section 5 of RFC 4648 without padding (section 3.2), proved
 * below, and it decodes back to the bytes. The UTF-8 encoder reads a
 * JavaScript string as its code points, a lone surrogate as U+FFFD, so two
 * addresses share a key exactly when they have the same code points. The
 * key is ASCII and is kept as a Dafny `string`. `Hex` is
 * `Buffer.toString('hex')`, used for the salt.
 */
module Encoding {
  import opened Wrappers
  import opened Utf16

  type Byte = x: int | 0 <= x < 256
  type Sextet = x: int | 0 <= x < 64

  // ---------------------------------------------------------------------------
  // UTF-8 (section 3 of RFC 3629)

  function Utf8Char(c: char): (r: seq<Byte>)
    ensures 1 <= |r| <= 4
  {
    var cp := c as int;
    if cp < 0x80 then [cp]
    else if cp < 0x800 then [0xC0 + cp / 64, 0x80 + cp % 64]
    else if cp < 0x10000 then [0xE0 + cp / 64 / 64, 0x80 + cp / 64 % 64, 0x80 + cp % 64]
    else [0xF0 + cp / 64 / 64 / 64, 0x80 + cp / 64 / 64 % 64, 0x80 + cp / 64 % 64, 0x80 + cp % 64]
  }

  /** The UTF-8 encoding of a sequence of code points. */
  function EncodeUtf8(cs: string): seq<Byte> {
    if cs == [] then [] else Utf8Char(cs[0]) + EncodeUtf8(cs[1..])
  }

  /** `Buffer.from(s, 'utf8')`: the UTF-8 encoding of the code points of `s`, a lone surrogate as U+FFFD. */
  function Utf8(s: JsString): seq<Byte> {
    EncodeUtf8(Scalars(s))
  }

  function Cont(b: Byte): int {
    if 0x80 <= b < 0xC0 then b - 0x80 else -1
  }

  function ScalarOf(cp: int): Option<char> {
    if 0 <= cp < 0xD800 || 0xE000 <= cp < 0x110000 then Some(cp as char) else None
  }

  /** Decodes one character from the front of `b`, giving it and the number of bytes it took. */
  function DecodeUtf8Char(b: seq<Byte>): Option<(char, nat)>
    requires b != []
  {
    var b0 := b[0];
    if b0 < 0x80 then Some((b0 as char, 1))
    else if 0xC0 <= b0 < 0xE0 && |b| >= 2 && Cont(b[1]) >= 0 then
      match ScalarOf((b0 - 0xC0) * 64 + Cont(b[1]))
      case Some(c) => Some((c, 2))
      case None => None
    else if 0xE0 <= b0 < 0xF0 && |b| >= 3 && Cont(b[1]) >= 0 && Cont(b[2]) >= 0 then
      match ScalarOf(((b0 - 0xE0) * 64 + Cont(b[1])) * 64 + Cont(b[2]))
      case Some(c) => Some((c, 3))
      case None => None
    else if 0xF0 <= b0 < 0xF8 && |b| >= 4 && Cont(b[1]) >= 0 && Cont(b[2]) >= 0 && Cont(b[3]) >= 0 then
      match ScalarOf((((b0 - 0xF0) * 64 + Cont(b[1])) * 64 + Cont(b[2])) * 64 + Cont(b[3]))
      case Some(c) => Some((c, 4))
      case None => None
    else None
  }

  function DecodeUtf8(b: seq<Byte>): Option<string>
    decreases |b|
  {
    if b == [] then Some([])
    else match DecodeUtf8Char(b)
      case None => None
      case Some((c, n)) =>
        if n == 0 || n > |b| then None
        else match DecodeUtf8(b[n..])
          case None => None
          case Some(rest) => Some([c] + rest)
  }

  lemma ScalarOfChar(c: char)
    ensures ScalarOf(c as int) == Some(c)
  {
  }

  lemma Utf8CharRoundTrip(c: char, rest: seq<Byte>)
    ensures DecodeUtf8Char(Utf8Char(c) + rest) == Some((c, |Utf8Char(c)|))
  {
    var cp := c as int;
    var b := Utf8Char(c) + rest;
    ScalarOfChar(c);
    if cp < 0x80 {
    } else if cp < 0x800 {
      assert b[0] - 0xC0 == cp / 64 && Cont(b[1]) == cp % 64;
    } else if cp < 0x10000 {
      var q := cp / 64;
      assert b[0] - 0xE0 == q / 64 && Cont(b[1]) == q % 64 && Cont(b[2]) == cp % 64;
      assert (q / 64 * 64 + q % 64) * 64 + cp % 64 == cp;
    } else {
      var q := cp / 64;
      var qq := q / 64;
      assert b[0] - 0xF0 == qq / 64 && Cont(b[1]) == qq % 64 && Cont(b[2]) == q % 64 && Cont(b[3]) == cp % 64;
      assert ((qq / 64 * 64 + qq % 64) * 64 + q % 64) * 64 + cp % 64 == cp;
    }
  }

  /** UTF-8 decoding inverts `EncodeUtf8`. */
  lemma {:induction false} EncodeUtf8RoundTrip(cs: string)
    ensures DecodeUtf8(EncodeUtf8(cs)) == Some(cs)
  {
    if cs != [] {
      var head := Utf8Char(cs[0]);
      var tail := EncodeUtf8(cs[1..]);
      Utf8CharRoundTrip(cs[0], tail);
      assert EncodeUtf8(cs) == head + tail;
      assert (head + tail)[|head|..] == tail;
      EncodeUtf8RoundTrip(cs[1..]);
      assert cs == [cs[0]] + cs[1..];
    }
  }

  /** The bytes of `Buffer.from(s, 'utf8')` decode to the code points of `s`. */
  lemma Utf8RoundTrip(s: JsString)
    ensures DecodeUtf8(Utf8(s)) == Some(Scalars(s))
  {
    EncodeUtf8RoundTrip(Scalars(s));
  }

  // ---------------------------------------------------------------------------
  // Base64 (RFC 4648)

  /** The four sextets of a three-byte group, most significant bits first. */
  function Sextet0(b0: Byte): Sextet { b0 / 4 }
  function Sextet1(b0: Byte, b1: Byte): Sextet { b0 % 4 * 16 + b1 / 16 }
  function Sextet2(b1: Byte, b2: Byte): Sextet { b1 % 16 * 4 + b2 / 64 }
  function Sextet3(b2: Byte): Sextet { b2 % 64 }

  /**
   * The sextets of `b`, 24-bit group by group (section 4 of RFC 4648); a final
   * group of one or two bytes is filled with zero bits to a whole sextet and
   * gives two or three sextets.
   */
  function Sextets(b: seq<Byte>): (r: seq<Sextet>)
    ensures |r| == (4 * |b| + 2) / 3
    decreases |b|
  {
    if |b| == 0 then []
    else if |b| == 1 then [Sextet0(b[0]), Sextet1(b[0], 0)]
    else if |b| == 2 then [Sextet0(b[0]), Sextet1(b[0], b[1]), Sextet2(b[1], 0)]
    else [Sextet0(b[0]), Sextet1(b[0], b[1]), Sextet2(b[1], b[2]), Sextet3(b[2])] + Sextets(b[3..])
  }

  /** Table 1 of RFC 4648 (the base64 alphabet). */
  function StdChar(v: Sextet): char {
    if v < 26 then ('A' as int + v) as char
    else if v < 52 then ('a' as int + v - 26) as char
    else if v < 62 then ('0' as int + v - 52) as char
    else if v == 62 then '+' else '/'
  }

  /** Table 2 of RFC 4648 (the URL- and filename-safe alphabet). */
  function UrlChar(v: Sextet): char {
    if v < 26 then ('A' as int + v) as char
    else if v < 52 then ('a' as int + v - 26) as char
    else if v < 62 then ('0' as int + v - 52) as char
    else if v == 62 then '-' else '_'
  }

  predicate IsUrlChar(c: char) {
    'A' <= c <= 'Z' || 'a' <= c <= 'z' || '0' <= c <= '9' || c == '-' || c == '_'
  }

  /** The `=` characters that complete the final quantum (section 3.2 of RFC 4648). */
  function Padding(n: nat): string {
    if n % 3 == 1 then "==" else if n % 3 == 2 then "=" else ""
  }

  /** `Buffer.toString('base64')`: padded base64 in the alphabet of Table 1. */
  function Base64(b: seq<Byte>): string {
    var vs := Sextets(b);
    seq(|vs|, i requires 0 <= i < |vs| => StdChar(vs[i])) + Padding(|b|)
  }

  /** Section 5 of RFC 4648 without the padding of section 3.2. */
  function Base64Url(b: seq<Byte>): (r: string)
    ensures |r| == (4 * |b| + 2) / 3
    ensures forall i :: 0 <= i < |r| ==> IsUrlChar(r[i])
  {
    var vs := Sextets(b);
    seq(|vs|, i requires 0 <= i < |vs| => UrlChar(vs[i]))
  }

  /** `s.replace(/x/g, y)` for a single character `x`. */
  function ReplaceAll(s: string, x: char, y: char): string {
    seq(|s|, i requires 0 <= i < |s| => if s[i] == x then y else s[i])
  }

  /** `s.replace(/x+$/, '')`: removes the trailing run of `x`. */
  function StripTrailing(s: string, x: char): (r: string)
    ensures |r| <= |s| && r == s[..|r|]
    ensures r == [] || r[|r| - 1] != x
    ensures forall i :: |r| <= i < |s| ==> s[i] == x
  {
    if s != [] && s[|s| - 1] == x then StripTrailing(s[..|s| - 1], x) else s
  }

  /** `docIdForEmail`, on the UTF-8 bytes of the address. */
  function DocId(b: seq<Byte>): (r: string)
    ensures r == Base64Url(b)
    ensures |r| == (4 * |b| + 2) / 3
    ensures forall i :: 0 <= i < |r| ==> IsUrlChar(r[i]) && r[i] != '='
  {
    TranslatedBase64(b);
    StripPadding(b);
    StripTrailing(ReplaceAll(ReplaceAll(Base64(b), '+', '-'), '/', '_'), '=')
  }

  /** The two replacements turn the padded standard encoding into the URL-safe one followed by the padding. */
  lemma TranslatedBase64(b: seq<Byte>)
    ensures ReplaceAll(ReplaceAll(Base64(b), '+', '-'), '/', '_') == Base64Url(b) + Padding(|b|)
  {
  }

  /** Stripping a trailing run of `x` from text that does not end in `x` leaves that text. */
  lemma {:induction false} StripTrailingRun(s: string, run: string, x: char)
    requires s == [] || s[|s| - 1] != x
    requires forall i :: 0 <= i < |run| ==> run[i] == x
    ensures StripTrailing(s + run, x) == s
    decreases |run|
  {
    if run != [] {
      assert (s + run)[..|s + run| - 1] == s + run[..|run| - 1];
      StripTrailingRun(s, run[..|run| - 1], x);
    }
  }

  /** Stripping the trailing `=` run removes exactly the padding. */
  lemma StripPadding(b: seq<Byte>)
    ensures StripTrailing(Base64Url(b) + Padding(|b|), '=') == Base64Url(b)
  {
    var body := Base64Url(b);
    StripTrailingRun(body, Padding(|b|), '=');
  }

  // ---------------------------------------------------------------------------
  // Decoding the key back into bytes

  /** Inverse of Table 2, or -1 for a character outside the alphabet. */
  function UrlValue(c: char): int {
    if 'A' <= c <= 'Z' then c as int - 'A' as int
    else if 'a' <= c <= 'z' then c as int - 'a' as int + 26
    else if '0' <= c <= '9' then c as int - '0' as int + 52
    else if c == '-' then 62
    else if c == '_' then 63
    else -1
  }

  /** The sextets a URL-safe string spells, if every character is in Table 2. */
  function UrlValues(s: string): Option<seq<Sextet>> {
    if s == [] then Some([])
    else if UrlValue(s[0]) < 0 then None
    else match UrlValues(s[1..])
      case None => None
      case Some(vs) => Some([UrlValue(s[0]) as Sextet] + vs)
  }

  /** The three bytes of a group of four sextets. */
  function Byte0(v0: Sextet, v1: Sextet): Byte { v0 * 4 + v1 / 16 }
  function Byte1(v1: Sextet, v2: Sextet): Byte { v1 % 16 * 16 + v2 / 4 }
  function Byte2(v2: Sextet, v3: Sextet): Byte { v2 % 4 * 64 + v3 }

  /** Regroups sextets into bytes; the zero fill of a short final group is dropped. */
  function JoinSextets(vs: seq<Sextet>): Option<seq<Byte>>
    decreases |vs|
  {
    if |vs| == 0 then Some([])
    else if |vs| == 1 then None
    else if |vs| == 2 then Some([Byte0(vs[0], vs[1])])
    else if |vs| == 3 then Some([Byte0(vs[0], vs[1]), Byte1(vs[1], vs[2])])
    else match JoinSextets(vs[4..])
      case None => None
      case Some(rest) => Some([Byte0(vs[0], vs[1]), Byte1(vs[1], vs[2]), Byte2(vs[2], vs[3])] + rest)
  }

  /** Decodes unpadded URL-safe base64. */
  function DecodeBase64Url(s: string): Option<seq<Byte>> {
    match UrlValues(s)
    case None => None
    case Some(vs) => JoinSextets(vs)
  }

  lemma {:induction false} UrlValuesOfSpelling(vs: seq<Sextet>)
    ensures UrlValues(seq(|vs|, i requires 0 <= i < |vs| => UrlChar(vs[i]))) == Some(vs)
  {
    if vs != [] {
      var s := seq(|vs|, i requires 0 <= i < |vs| => UrlChar(vs[i]));
      UrlValuesOfSpelling(vs[1..]);
      assert s[1..] == seq(|vs[1..]|, i requires 0 <= i < |vs[1..]| => UrlChar(vs[1..][i]));
      assert UrlValue(s[0]) == vs[0];
      assert vs == [vs[0]] + vs[1..];
    }
  }

  lemma SextetsRejoin(b0: Byte, b1: Byte, b2: Byte)
    ensures Byte0(Sextet0(b0), Sextet1(b0, b1)) == b0
    ensures Byte1(Sextet1(b0, b1), Sextet2(b1, b2)) == b1
    ensures Byte2(Sextet2(b1, b2), Sextet3(b2)) == b2
  {
  }

  lemma JoinTwoSextets(v0: Sextet, v1: Sextet)
    ensures JoinSextets([v0, v1]) == Some([Byte0(v0, v1)])
  {
  }

  lemma JoinThreeSextets(v0: Sextet, v1: Sextet, v2: Sextet)
    ensures JoinSextets([v0, v1, v2]) == Some([Byte0(v0, v1), Byte1(v1, v2)])
  {
  }

  lemma JoinSextetsOne(b0: Byte)
    ensures JoinSextets(Sextets([b0])) == Some([b0])
  {
    var vs := Sextets([b0]);
    assert vs == [Sextet0(b0), Sextet1(b0, 0)];
    SextetsRejoin(b0, 0, 0);
    JoinTwoSextets(Sextet0(b0), Sextet1(b0, 0));
  }

  lemma JoinSextetsTwo(b0: Byte, b1: Byte)
    ensures JoinSextets(Sextets([b0, b1])) == Some([b0, b1])
  {
    var vs := Sextets([b0, b1]);
    assert vs == [Sextet0(b0), Sextet1(b0, b1), Sextet2(b1, 0)];
    SextetsRejoin(b0, b1, 0);
    JoinThreeSextets(Sextet0(b0), Sextet1(b0, b1), Sextet2(b1, 0));
  }

  lemma {:induction false} JoinSextetsRoundTrip(b: seq<Byte>)
    ensures JoinSextets(Sextets(b)) == Some(b)
    decreases |b|
  {
    if |b| == 1 {
      JoinSextetsOne(b[0]);
      assert b == [b[0]];
    } else if |b| == 2 {
      JoinSextetsTwo(b[0], b[1]);
      assert b == [b[0], b[1]];
    } else if |b| >= 3 {
      var g := [Sextet0(b[0]), Sextet1(b[0], b[1]), Sextet2(b[1], b[2]), Sextet3(b[2])];
      var tail := Sextets(b[3..]);
      var vs := Sextets(b);
      assert vs == g + tail;
      assert vs[4..] == tail && vs[..4] == g;
      SextetsRejoin(b[0], b[1], b[2]);
      JoinSextetsRoundTrip(b[3..]);
      assert JoinSextets(vs) == Some([b[0], b[1], b[2]] + b[3..]);
      assert b == [b[0], b[1], b[2]] + b[3..];
    }
  }

  /** Decoding inverts `Base64Url`. */
  lemma Base64UrlRoundTrip(b: seq<Byte>)
    ensures DecodeBase64Url(Base64Url(b)) == Some(b)
  {
    UrlValuesOfSpelling(Sextets(b));
    JoinSextetsRoundTrip(b);
  }

  /** Distinct byte strings get distinct keys. */
  lemma DocIdInjective(a: seq<Byte>, b: seq<Byte>)
    requires DocId(a) == DocId(b)
    ensures a == b
  {
    Base64UrlRoundTrip(a);
    Base64UrlRoundTrip(b);
  }

  /** Two strings have the same UTF-8 bytes exactly when they have the same code points. */
  lemma Utf8Injective(s: JsString, t: JsString)
    ensures Utf8(s) == Utf8(t) <==> Scalars(s) == Scalars(t)
  {
    Utf8RoundTrip(s);
    Utf8RoundTrip(t);
  }

  // ---------------------------------------------------------------------------
  // Hex

  function HexDigit(d: int): Unit
    requires 0 <= d < 16
  {
    if d < 10 then '0' as int + d else 'a' as int + d - 10
  }

  predicate IsHexChar(c: Unit) {
    '0' as int <= c <= '9' as int || 'a' as int <= c <= 'f' as int
  }

  /** `Buffer.toString('hex')`: each byte spelled as two lower-case hexadecimal digits, high half first. */
  function Hex(b: seq<Byte>): (r: JsString)
    ensures |r| == 2 * |b|
    ensures forall i :: 0 <= i < |r| ==> IsHexChar(r[i])
    ensures forall i :: 0 <= i < |b| ==> r[2 * i] == HexDigit(b[i] / 16) && r[2 * i + 1] == HexDigit(b[i] % 16)
  {
    if b == [] then [] else [HexDigit(b[0] / 16), HexDigit(b[0] % 16)] + Hex(b[1..])
  }

  /** Distinct byte strings have distinct hex spellings. */
  lemma HexInjective(a: seq<Byte>, b: seq<Byte>)
    ensures Hex(a) == Hex(b) <==> a == b
  {
    if Hex(a) == Hex(b) {
      forall i | 0 <= i < |a|
        ensures a[i] == b[i]
      {
        assert HexDigit(a[i] / 16) == HexDigit(b[i] / 16) && HexDigit(a[i] % 16) == HexDigit(b[i] % 16);
      }
    }
  }
}
