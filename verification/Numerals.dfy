/** Bytes, 32-byte digests, and the two number spellings the archive writes: lower-case
    hexadecimal (`bytes.hex()`) and decimal (`str(int)`), each with its reader. */
module Numerals {
  type Byte = x: int | 0 <= x < 256
  type Bytes = seq<Byte>

  /** A SHA-256 value: `is_content_hash` accepts exactly 32 bytes. */
  type Digest = d: Bytes | |d| == 32 witness seq(32, _ => 0)

  const HEX_DIGITS: string := "0123456789abcdef"

  function HexDigit(n: int): (c: char)
    requires 0 <= n < 16
    ensures c in HEX_DIGITS && HexValue(c) == n
  {
    HEX_DIGITS[n]
  }

  /** The value of a lower-case hexadecimal digit, -1 for any other character. */
  function HexValue(c: char): (n: int)
    ensures -1 <= n < 16
    ensures n >= 0 ==> HEX_DIGITS[n] == c
  {
    if '0' <= c <= '9' then c as int - '0' as int
    else if 'a' <= c <= 'f' then c as int - 'a' as int + 10
    else -1
  }

  /** `value.hex()`. */
  function Hex(value: Bytes): (text: string)
    ensures |text| == 2 * |value|
    ensures forall i :: 0 <= i < |text| ==> text[i] in HEX_DIGITS
  {
    if value == [] then ""
    else [HexDigit(value[0] / 16), HexDigit(value[0] % 16)] + Hex(value[1..])
  }

  /** `bytes.fromhex(text)` on the spelling `Hex` writes. */
  function ReadHex(text: string): Bytes {
    if |text| < 2 || HexValue(text[0]) < 0 || HexValue(text[1]) < 0 then []
    else [HexValue(text[0]) * 16 + HexValue(text[1])] + ReadHex(text[2..])
  }

  lemma {:induction false} HexRoundTrip(value: Bytes)
    ensures ReadHex(Hex(value)) == value
  {
    if value != [] {
      HexRoundTrip(value[1..]);
      var high, low := value[0] / 16, value[0] % 16;
      HexStep(value, high, low);
      ByteParts(value, high, low);
      ReadHexStep(Hex(value), high, low, value[1..]);
    }
  }

  lemma HexStep(value: Bytes, high: int, low: int)
    requires value != [] && high == value[0] / 16 && low == value[0] % 16
    ensures var text := Hex(value);
            |text| >= 2 && HexValue(text[0]) == high && HexValue(text[1]) == low && text[2..] == Hex(value[1..])
  {
    var pair := [HexDigit(high), HexDigit(low)];
    assert Hex(value) == pair + Hex(value[1..]);
  }

  lemma ReadHexStep(text: string, high: int, low: int, rest: Bytes)
    requires 0 <= high < 16 && 0 <= low < 16 && |text| >= 2 && HexValue(text[0]) == high && HexValue(text[1]) == low
    requires ReadHex(text[2..]) == rest
    ensures ReadHex(text) == [high * 16 + low] + rest
  {
  }

  lemma ByteParts(value: Bytes, high: int, low: int)
    requires value != [] && high == value[0] / 16 && low == value[0] % 16
    ensures 0 <= high < 16 && 0 <= low < 16 && [high * 16 + low] + value[1..] == value
  {
    assert high * 16 + low == value[0];
  }

  lemma HexInjective(first: Bytes, second: Bytes)
    requires Hex(first) == Hex(second)
    ensures first == second
  {
    HexRoundTrip(first);
    HexRoundTrip(second);
  }

  predicate IsDecimalDigit(c: char) { '0' <= c <= '9' }

  /** `str(n)` for a non-negative integer. */
  function Decimal(n: nat): (text: string)
    ensures text != ""
    ensures forall i :: 0 <= i < |text| ==> IsDecimalDigit(text[i])
  {
    var digit := HEX_DIGITS[n % 10];
    assert digit == ('0' as int + n % 10) as char;
    if n < 10 then [digit] else Decimal(n / 10) + [digit]
  }

  /** `int(text)` on decimal digits. */
  function ReadDecimal(text: string): nat {
    if text == "" || !IsDecimalDigit(text[|text| - 1]) then 0
    else 10 * ReadDecimal(text[..|text| - 1]) + (text[|text| - 1] as int - '0' as int)
  }

  lemma {:induction false} DecimalRoundTrip(n: nat)
    ensures ReadDecimal(Decimal(n)) == n
  {
    var text := Decimal(n);
    if n >= 10 {
      DecimalRoundTrip(n / 10);
      assert text[..|text| - 1] == Decimal(n / 10);
    } else {
      assert text[..|text| - 1] == "";
    }
  }
}
