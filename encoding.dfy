/** The standard-library formatting that the hex helpers rely on:
    strconv.FormatInt in base 16, strings.ToUpper on hex digits, the UTF-8
    encoding of a rune (string(r) converted to bytes) and hex.EncodeToString.
    Each comes with the reading-back function that shows it loses nothing. */
module Encoding {

  /** A Go rune: a signed 32-bit integer, valid code point or not. */
  type Rune = x: int | -0x8000_0000 <= x < 0x8000_0000

  type Byte = x: int | 0 <= x < 0x100

  const RuneError: int := 0xFFFD
  const MaxRune: int := 0x10FFFF

  /** A digit strconv writes: '0' to '9', then 'a' to 'f'. */
  predicate IsLowerHex(c: char) {
    '0' <= c <= '9' || 'a' <= c <= 'f'
  }

  /** A digit as it leaves strings.ToUpper: '0' to '9', then 'A' to 'F'. */
  predicate IsUpperHex(c: char) {
    '0' <= c <= '9' || 'A' <= c <= 'F'
  }

  /** The lower-case hex digit of a value below 16. */
  function LowerDigit(d: nat): (c: char)
    requires d < 16
    ensures IsLowerHex(c)
  {
    "0123456789abcdef"[d]
  }

  /** The value of a hex digit of either case, or -1 for any other character. */
  function DigitValue(c: char): (v: int)
    ensures -1 <= v < 16
    ensures v == -1 <==> !IsLowerHex(c) && !IsUpperHex(c)
  {
    if '0' <= c <= '9' then c as int - '0' as int
    else if 'a' <= c <= 'f' then c as int - 'a' as int + 10
    else if 'A' <= c <= 'F' then c as int - 'A' as int + 10
    else -1
  }

  /** Each lower-case digit reads back as its value. */
  lemma DigitValueOfLower(d: nat)
    requires d < 16
    ensures DigitValue(LowerDigit(d)) == d
  {
  }

  /** strconv.FormatUint(n, 16): lower-case digits, most significant first,
      without leading zeros ("0" for zero). */
  function HexDigits(n: nat): (s: string)
    ensures 1 <= |s|
    ensures forall i :: 0 <= i < |s| ==> IsLowerHex(s[i])
    ensures s[0] == '0' ==> n == 0
    decreases n
  {
    if n < 16 then [LowerDigit(n)] else HexDigits(n / 16) + [LowerDigit(n % 16)]
  }

  /** HexDigits takes one digit per power of sixteen: a single digit exactly
      for values below 16. */
  lemma {:induction false} HexDigitsLength(n: nat)
    ensures |HexDigits(n)| == 1 <==> n < 16
    ensures n < 256 ==> |HexDigits(n)| <= 2
  {
    if n >= 16 {
      assert |HexDigits(n)| == |HexDigits(n / 16)| + 1;
      if n < 256 {
        HexDigitsLength(n / 16);
      }
    }
  }

  /** The number a string of hex digits of either case denotes. */
  function HexValue(s: string): (v: int)
    decreases |s|
  {
    if s == [] then 0 else HexValue(s[..|s| - 1]) * 16 + DigitValue(s[|s| - 1])
  }

  /** HexDigits reads back as the number it was made from. */
  lemma {:induction false} HexValueOfDigits(n: nat)
    ensures HexValue(HexDigits(n)) == n
    decreases n
  {
    var s := HexDigits(n);
    if n < 16 {
      DigitValueOfLower(n);
    } else {
      HexValueOfDigits(n / 16);
      assert s[..|s| - 1] == HexDigits(n / 16);
      DigitValueOfLower(n % 16);
    }
  }

  /** strconv.FormatInt(x, 16): a '-' before the digits of |x| when x is negative. */
  function FormatHex(x: int): (s: string)
    ensures 1 <= |s|
    ensures x < 0 <==> s[0] == '-'
  {
    if x < 0 then "-" + HexDigits(-x) else HexDigits(x)
  }

  /** strings.ToUpper on one character of FormatHex's output; only the
      letters 'a' to 'z' change. */
  function UpperChar(c: char): (u: char)
    ensures 'a' <= c <= 'z' ==> u as int == c as int - 32
    ensures !('a' <= c <= 'z') ==> u == c
  {
    if 'a' <= c <= 'z' then (c as int - 32) as char else c
  }

  /** strings.ToUpper restricted to ASCII, which is all it ever sees here. */
  function ToUpper(s: string): (u: string)
    ensures |u| == |s|
    ensures forall i :: 0 <= i < |s| ==> u[i] == UpperChar(s[i])
  {
    if s == [] then [] else [UpperChar(s[0])] + ToUpper(s[1..])
  }

  /** Upper-casing keeps the value of a digit. */
  lemma DigitValueUpper(c: char)
    requires IsLowerHex(c)
    ensures DigitValue(UpperChar(c)) == DigitValue(c)
    ensures IsUpperHex(UpperChar(c))
  {
  }

  /** Two digit strings whose digits have the same values, place by place,
      have the same value. */
  lemma {:induction false} HexValueSame(s: string, t: string)
    requires |s| == |t|
    requires forall i :: 0 <= i < |s| ==> DigitValue(s[i]) == DigitValue(t[i])
    ensures HexValue(s) == HexValue(t)
    decreases |s|
  {
    if s != [] {
      var n := |s| - 1;
      assert forall i :: 0 <= i < n ==> s[..n][i] == s[i] && t[..n][i] == t[i];
      HexValueSame(s[..n], t[..n]);
    }
  }

  /** Upper-casing a string of lower-case hex digits keeps its value. */
  lemma HexValueUpper(s: string)
    requires forall i :: 0 <= i < |s| ==> IsLowerHex(s[i])
    ensures HexValue(ToUpper(s)) == HexValue(s)
  {
    var u := ToUpper(s);
    forall i | 0 <= i < |s| ensures DigitValue(s[i]) == DigitValue(u[i]) {
      DigitValueUpper(s[i]);
    }
    HexValueSame(s, u);
  }

  /** The UTF-8 encoding of a rune as Go's string(r) produces it: one to four
      bytes by the size of the code point, and the encoding of U+FFFD for a
      negative value, a surrogate or a value above U+10FFFF. */
  function Utf8Encode(r: Rune): (b: seq<Byte>)
    ensures 1 <= |b| <= 4
    ensures |b| == 1 ==> b[0] < 0x80
    ensures |b| == 2 ==> 0xC2 <= b[0] < 0xE0
    ensures |b| == 3 ==> 0xE0 <= b[0] < 0xF0
    ensures |b| == 4 ==> 0xF0 <= b[0] < 0xF5
    ensures forall j :: 1 <= j < |b| ==> 0x80 <= b[j] < 0xC0
  {
    if 0 <= r < 0x80 then [r]
    else if 0 <= r < 0x800 then [0xC0 + r / 0x40, 0x80 + r % 0x40]
    else if r < 0 || MaxRune < r || 0xD800 <= r < 0xE000 then [0xEF, 0xBF, 0xBD]
    else if r < 0x1_0000 then [0xE0 + r / 0x1000, 0x80 + r / 0x40 % 0x40, 0x80 + r % 0x40]
    else [0xF0 + r / 0x4_0000, 0x80 + r / 0x1000 % 0x40, 0x80 + r / 0x40 % 0x40, 0x80 + r % 0x40]
  }

  /** The code point a well-formed UTF-8 sequence of one to four bytes denotes. */
  function Utf8Decode(b: seq<Byte>): (r: int)
    requires 1 <= |b| <= 4
  {
    var b0: int := b[0];
    if |b| == 1 then b0
    else
      var b1: int := b[1] as int - 0x80;
      if |b| == 2 then (b0 - 0xC0) * 0x40 + b1
      else
        var b2: int := b[2] as int - 0x80;
        if |b| == 3 then ((b0 - 0xE0) * 0x40 + b1) * 0x40 + b2
        else
          var b3: int := b[3] as int - 0x80;
          (((b0 - 0xF0) * 0x40 + b1) * 0x40 + b2) * 0x40 + b3
  }

  /** The rune that string(r) actually holds: r itself when it is a Unicode
      scalar value, U+FFFD otherwise. */
  function Encoded(r: Rune): (e: int) {
    if r < 0 || MaxRune < r || 0xD800 <= r < 0xE000 then RuneError else r
  }

  lemma Split3(r: int)
    requires 0 <= r
    ensures (r / 0x1000 * 0x40 + r / 0x40 % 0x40) * 0x40 + r % 0x40 == r
  {
    assert r / 0x40 == r / 0x1000 * 0x40 + r / 0x40 % 0x40;
    assert r == r / 0x40 * 0x40 + r % 0x40;
  }

  lemma Split4(r: int)
    requires 0 <= r
    ensures ((r / 0x4_0000 * 0x40 + r / 0x1000 % 0x40) * 0x40 + r / 0x40 % 0x40) * 0x40 + r % 0x40 == r
  {
    assert r / 0x1000 == r / 0x4_0000 * 0x40 + r / 0x1000 % 0x40;
    Split3(r);
  }

  /** Decoding the bytes of string(r) gives back the rune it holds, and the
      number of bytes is the one the code point's size calls for. */
  lemma Utf8RoundTrip(r: Rune)
    ensures Utf8Decode(Utf8Encode(r)) == Encoded(r)
    ensures |Utf8Encode(r)| == 1 <==> 0 <= r < 0x80
    ensures |Utf8Encode(r)| == 2 <==> 0x80 <= r < 0x800
    ensures |Utf8Encode(r)| == 4 <==> 0x1_0000 <= r <= MaxRune
  {
    if 0x800 <= r < 0x1_0000 && !(0xD800 <= r < 0xE000) {
      Split3(r);
    } else if 0x1_0000 <= r <= MaxRune {
      Split4(r);
    }
  }

  /** The two lower-case hex digits of a byte. */
  function HexByte(b: Byte): (s: string)
    ensures |s| == 2 && IsLowerHex(s[0]) && IsLowerHex(s[1])
  {
    [LowerDigit(b / 16), LowerDigit(b % 16)]
  }

  /** The two digits of a byte read back as the byte. */
  lemma HexByteReadsBack(b: Byte)
    ensures HexValue(HexByte(b)) == b
  {
    var s := HexByte(b);
    DigitValueOfLower(b / 16);
    DigitValueOfLower(b % 16);
    assert s[..1] == [LowerDigit(b / 16)] && s[..1][..0] == [];
    assert HexValue(s[..1]) == b / 16;
  }

  /** hex.EncodeToString: two lower-case hex digits per byte, in order. */
  function HexEncode(b: seq<Byte>): (s: string)
    ensures |s| == 2 * |b|
    ensures forall j :: 0 <= j < |b| ==> s[2 * j] == HexByte(b[j])[0] && s[2 * j + 1] == HexByte(b[j])[1]
  {
    if b == [] then [] else HexByte(b[0]) + HexEncode(b[1..])
  }
}
