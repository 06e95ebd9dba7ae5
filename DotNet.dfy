/** The parts of the .NET runtime the enumeration code leans on: exceptions,
    byte and UTF-16 decoding, `TrimEnd` and the decimal rendering of an
    unsigned integer. */
module DotNet {
  import opened Win32

  /** The runtime exceptions the modelled code can raise. */
  datatype Exception = IndexOutOfRange | ArgumentOutOfRange | NullReference | OutOfMemory

  /** `Array.MaxLength`: `new byte[n]` throws OutOfMemoryException for any
      larger n. */
  const ARRAY_MAX_LENGTH: nat := 0x7FFF_FFC7

  /** The longest string the runtime allocates; building a longer one throws
      OutOfMemoryException. */
  const STRING_MAX_LENGTH: nat := 0x3FFF_FFDF

  /** A value, or the exception that was thrown instead. */
  datatype Result<T> = Ok(value: T) | Threw(ex: Exception)

  /** The character one byte of a single-byte string decodes to: the ASCII
      character for 0..127, and U+0080..U+00FF for the rest. */
  function ByteChar(b: byte): (c: char)
    ensures c as int == b
  {
    b as char
  }

  /** `char.IsWhiteSpace`: the characters of Unicode category Zs, Zl and Zp,
      and U+0009..U+000D, U+0085. */
  predicate IsWhiteSpace(c: char) {
    var u := c as int;
    || 0x09 <= u <= 0x0D || u == 0x20 || u == 0x85 || u == 0xA0 || u == 0x1680
    || 0x2000 <= u <= 0x200A || u == 0x2028 || u == 0x2029 || u == 0x202F
    || u == 0x205F || u == 0x3000
  }

  /** `TrimEnd(trimChars)`: drops the longest suffix of s whose elements all
      satisfy `trim`. */
  function TrimEndBy<T>(s: seq<T>, trim: T -> bool): (r: seq<T>)
    ensures r <= s
    ensures r == [] || !trim(r[|r| - 1])
    ensures forall i :: |r| <= i < |s| ==> trim(s[i])
  {
    if s != [] && trim(s[|s| - 1]) then TrimEndBy(s[..|s| - 1], trim) else s
  }

  /** Any prefix of s that does not end in a trimmed element and is followed
      only by trimmed elements is what `TrimEndBy` returns. */
  lemma TrimEndByUnique<T>(s: seq<T>, r: seq<T>, trim: T -> bool)
    requires r <= s
    requires r == [] || !trim(r[|r| - 1])
    requires forall i :: |r| <= i < |s| ==> trim(s[i])
    ensures TrimEndBy(s, trim) == r
  {
    var q := TrimEndBy(s, trim);
    assert q == s[..|q|] && r == s[..|r|];
  }

  /** `string.TrimEnd()`: removes trailing white space. */
  function TrimEnd(s: string): (r: string)
    ensures r <= s
    ensures r == [] || !IsWhiteSpace(r[|r| - 1])
    ensures forall i :: |r| <= i < |s| ==> IsWhiteSpace(s[i])
  {
    TrimEndBy(s, IsWhiteSpace)
  }

  /** Trimming keeps a string that does not end in white space, and is
      therefore idempotent. */
  lemma TrimEndKeepsTrimmed(s: string)
    requires s == [] || !IsWhiteSpace(s[|s| - 1])
    ensures TrimEnd(s) == s
  {
  }

  /** A UTF-16 code unit. */
  type CodeUnit = x: int | 0 <= x < 0x1_0000

  /** U+FFFD, what the decoder produces for an incomplete trailing code unit. */
  const REPLACEMENT_CHARACTER: CodeUnit := 0xFFFD

  /** `Encoding.Unicode.GetString` on code units: each pair of bytes is one
      little-endian code unit, and a lone final byte becomes U+FFFD. */
  function Utf16LeUnits(b: seq<byte>): (u: seq<CodeUnit>)
    ensures |u| == (|b| + 1) / 2
    ensures |b| % 2 == 1 ==> u[|u| - 1] == REPLACEMENT_CHARACTER
  {
    if |b| == 0 then []
    else if |b| == 1 then [REPLACEMENT_CHARACTER]
    else [b[0] as int + 0x100 * (b[1] as int)] + Utf16LeUnits(b[2..])
  }

  /** Code unit k is made of bytes 2k (low) and 2k + 1 (high). */
  lemma {:induction false} Utf16LeUnitAt(b: seq<byte>, k: nat)
    requires 2 * k + 1 < |b|
    ensures Utf16LeUnits(b)[k] == b[2 * k] as int + 0x100 * (b[2 * k + 1] as int)
  {
    if k > 0 {
      Utf16LeUnitAt(b[2..], k - 1);
      assert b[2..][2 * (k - 1)] == b[2 * k];
      assert b[2..][2 * (k - 1) + 1] == b[2 * k + 1];
    }
  }

  /** `Encoding.Unicode.GetBytes` on code units: each unit as two
      little-endian bytes. */
  function Utf16LeBytes(u: seq<CodeUnit>): (b: seq<byte>)
    ensures |b| == 2 * |u|
  {
    if u == [] then [] else [u[0] % 0x100, u[0] / 0x100] + Utf16LeBytes(u[1..])
  }

  /** Decoding the encoding of some code units, followed by any bytes, gives
      those units followed by the decoding of the bytes. */
  lemma {:induction false} Utf16LeRoundTrip(u: seq<CodeUnit>, tail: seq<byte>)
    ensures Utf16LeUnits(Utf16LeBytes(u) + tail) == u + Utf16LeUnits(tail)
  {
    if u != [] {
      var rest := Utf16LeBytes(u[1..]) + tail;
      var b := [u[0] % 0x100, u[0] / 0x100] + rest;
      assert Utf16LeBytes(u) + tail == b;
      assert b[2..] == rest;
      assert b[0] as int + 0x100 * (b[1] as int) == u[0];
      calc {
        Utf16LeUnits(b);
        [u[0]] + Utf16LeUnits(rest);
        { Utf16LeRoundTrip(u[1..], tail); }
        [u[0]] + (u[1..] + Utf16LeUnits(tail));
      }
      assert u == [u[0]] + u[1..];
    } else {
      assert Utf16LeBytes(u) + tail == tail;
    }
  }

  /** NUL bytes decode to as many NUL code units. */
  lemma {:induction false} Utf16LeUnitsOfZeros(n: nat)
    ensures Utf16LeUnits(seq(2 * n, _ => 0)) == seq(n, _ => 0)
  {
    if n > 0 {
      var b: seq<byte> := seq(2 * n, _ => 0);
      assert b[2..] == seq(2 * (n - 1), _ => 0);
      Utf16LeUnitsOfZeros(n - 1);
      assert seq(n, _ => 0) == [0] + seq(n - 1, _ => 0);
    }
  }

  function DigitChar(d: nat): (c: char)
    requires d < 10
    ensures '0' <= c <= '9'
  {
    ('0' as int + d) as char
  }

  predicate IsDigits(s: string) {
    forall i :: 0 <= i < |s| ==> '0' <= s[i] <= '9'
  }

  /** `uint.ToString()`: the decimal digits of n, most significant first,
      without leading zeros. */
  function DecimalDigits(n: nat): (s: string)
    ensures |s| >= 1 && IsDigits(s)
    ensures (s[0] == '0') == (n == 0)
  {
    if n < 10 then [DigitChar(n)] else DecimalDigits(n / 10) + [DigitChar(n % 10)]
  }

  /** The number a string of decimal digits denotes. */
  function ParseDecimal(s: string): nat
    requires IsDigits(s)
  {
    if s == [] then 0 else 10 * ParseDecimal(s[..|s| - 1]) + (s[|s| - 1] as int - '0' as int)
  }

  /** Rendering a number in decimal and reading it back gives the number. */
  lemma {:induction false} DecimalRoundTrip(n: nat)
    ensures ParseDecimal(DecimalDigits(n)) == n
  {
    if n >= 10 {
      var s := DecimalDigits(n);
      assert s[..|s| - 1] == DecimalDigits(n / 10);
      DecimalRoundTrip(n / 10);
    }
  }

  /** Different numbers have different renderings. */
  lemma DecimalInjective(m: nat, n: nat)
    requires DecimalDigits(m) == DecimalDigits(n)
    ensures m == n
  {
    DecimalRoundTrip(m);
    DecimalRoundTrip(n);
  }
}
