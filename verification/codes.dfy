/**
 * The login code and its hash input (`generateCode` and `hashCode` in
 * functions/index.js). The random draw of `crypto.randomInt(0, 1_000_000)`
 * and the bytes of `crypto.randomBytes(16)` are inputs; SHA-256 itself is
 * a parameter of the store (see module Otc).
 */
module Codes {
  import opened Utf16
  import opened Encoding

  /** Number of characters in a login code. */
  const CODE_LENGTH := 6
  /** Exclusive upper bound of the random draw behind a code. */
  const CODE_RANGE := 1000000

  predicate IsDigit(c: Unit) {
    '0' as int <= c <= '9' as int
  }

  predicate AllDigits(s: JsString) {
    forall i :: 0 <= i < |s| ==> IsDigit(s[i])
  }

  function DigitChar(d: int): Unit
    requires 0 <= d < 10
  {
    '0' as int + d
  }

  function DigitValue(c: Unit): int
    requires IsDigit(c)
  {
    c - '0' as int
  }

  function Pow10(k: nat): nat {
    if k == 0 then 1 else 10 * Pow10(k - 1)
  }

  /** `Number.prototype.toString()` of a non-negative integer: decimal digits, no leading zero. */
  function DecimalString(n: nat): (r: JsString)
    ensures |r| >= 1 && AllDigits(r)
    ensures |r| > 1 ==> r[0] != '0' as int
    decreases n
  {
    if n < 10 then [DigitChar(n)] else DecimalString(n / 10) + [DigitChar(n % 10)]
  }

  /** `Number.prototype.toString()` of an integer-valued Number below 10^21 in magnitude. */
  function NumberString(n: int): JsString {
    if n < 0 then ['-' as int] + DecimalString(-n) else DecimalString(n)
  }

  /** Reads a string of decimal digits as a number. */
  function ParseDecimal(s: JsString): nat
    requires AllDigits(s)
  {
    if s == [] then 0 else 10 * ParseDecimal(s[..|s| - 1]) + DigitValue(s[|s| - 1])
  }

  /** `s.padStart(width, fill)` with a one-character filler. */
  function PadStart(s: JsString, width: nat, fill: Unit): (r: JsString)
    ensures |r| >= width && |r| >= |s|
    ensures |r| == width || |r| == |s|
    ensures r[|r| - |s|..] == s
    ensures forall i :: 0 <= i < |r| - |s| ==> r[i] == fill
  {
    if |s| < width then seq(width - |s|, _ => fill) + s else s
  }

  /** A number below `10^k` has at most `k` digits. */
  lemma {:induction false} DecimalStringLength(n: nat, k: nat)
    requires 1 <= k && n < Pow10(k)
    ensures |DecimalString(n)| <= k
    decreases k
  {
    if n >= 10 {
      assert k >= 2;
      DecimalStringLength(n / 10, k - 1);
    }
  }

  /** Reading back the decimal digits of `n` gives `n`. */
  lemma {:induction false} ParseDecimalString(n: nat)
    ensures ParseDecimal(DecimalString(n)) == n
    decreases n
  {
    if n >= 10 {
      var s := DecimalString(n);
      assert s[..|s| - 1] == DecimalString(n / 10);
      ParseDecimalString(n / 10);
    }
  }

  /** Leading zeros do not change the value. */
  lemma {:induction false} ParseLeadingZeros(zeros: JsString, s: JsString)
    requires forall i :: 0 <= i < |zeros| ==> zeros[i] == '0' as int
    requires AllDigits(s)
    ensures ParseDecimal(zeros + s) == ParseDecimal(s)
    decreases |s|
  {
    if s == [] {
      AllZeros(zeros);
      assert zeros + s == zeros;
    } else {
      assert (zeros + s)[..|zeros + s| - 1] == zeros + s[..|s| - 1];
      ParseLeadingZeros(zeros, s[..|s| - 1]);
    }
  }

  lemma {:induction false} AllZeros(zeros: JsString)
    requires forall i :: 0 <= i < |zeros| ==> zeros[i] == '0' as int
    ensures ParseDecimal(zeros) == 0
    decreases |zeros|
  {
    if zeros != [] {
      AllZeros(zeros[..|zeros| - 1]);
    }
  }

  /**
   * `generateCode`, given the draw of `crypto.randomInt(0, 1_000_000)`: six
   * decimal digits that read back as the draw.
   */
  function GenerateCode(draw: int): (code: JsString)
    requires 0 <= draw < CODE_RANGE
    ensures |code| == CODE_LENGTH && AllDigits(code)
    ensures ParseDecimal(code) == draw
  {
    var digits := DecimalString(draw);
    assert Pow10(6) == 1000000;
    DecimalStringLength(draw, 6);
    var code := PadStart(digits, CODE_LENGTH, '0' as int);
    assert code == code[..|code| - |digits|] + digits;
    ParseLeadingZeros(code[..|code| - |digits|], digits);
    ParseDecimalString(draw);
    code
  }

  /** Distinct draws give distinct codes. */
  lemma GenerateCodeInjective(a: int, b: int)
    requires 0 <= a < CODE_RANGE && 0 <= b < CODE_RANGE
    ensures GenerateCode(a) == GenerateCode(b) <==> a == b
  {
  }

  /** The salt: `crypto.randomBytes(16).toString('hex')`, given the random bytes. */
  function Salt(random: seq<Byte>): (salt: JsString)
    ensures |salt| == 2 * |random|
    ensures ':' as int !in salt
    ensures forall i :: 0 <= i < |salt| ==> IsHexChar(salt[i])
  {
    Hex(random)
  }

  /** The text `hashCode` feeds to SHA-256: `${salt}:${code}`. */
  function HashInput(code: JsString, salt: JsString): JsString {
    salt + [':' as int] + code
  }

  /** In the hash input of a colon-free salt, the first colon ends the salt. */
  lemma FirstColon(code: JsString, salt: JsString)
    requires ':' as int !in salt
    ensures HashInput(code, salt)[|salt|] == ':' as int
    ensures forall i :: 0 <= i < |salt| ==> HashInput(code, salt)[i] != ':' as int
  {
  }

  /** With a colon-free salt, the hash input determines both the salt and the code. */
  lemma HashInputInjective(code1: JsString, salt1: JsString, code2: JsString, salt2: JsString)
    requires ':' as int !in salt1 && ':' as int !in salt2
    requires HashInput(code1, salt1) == HashInput(code2, salt2)
    ensures code1 == code2 && salt1 == salt2
  {
    var t := HashInput(code1, salt1);
    FirstColon(code1, salt1);
    FirstColon(code2, salt2);
    assert |salt1| == |salt2|;
    assert salt1 == t[..|salt1|] == salt2;
    assert code1 == t[|salt1| + 1..] == code2;
  }
}
