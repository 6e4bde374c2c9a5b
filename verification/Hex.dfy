/** Lower-case hexadecimal text. */
module Hex {

  newtype Byte = n: int | 0 <= n < 256

  predicate IsHexDigit(c: char) {
    '0' <= c <= '9' || 'a' <= c <= 'f'
  }

  predicate IsHex(s: string) {
    forall i :: 0 <= i < |s| ==> IsHexDigit(s[i])
  }

  const DIGITS := "0123456789abcdef"

  /** Bytes written in hexadecimal, two digits each. */
  function HexOf(bytes: seq<Byte>): string {
    if bytes == [] then ""
    else
      var n := bytes[0] as int;
      [DIGITS[n / 16], DIGITS[n % 16]] + HexOf(bytes[1..])
  }

  lemma DigitOf(c: char) returns (n: nat)
    requires IsHexDigit(c)
    ensures n < 16 && DIGITS[n] == c
  {
    n := if c <= '9' then c as int - '0' as int else c as int - 'a' as int + 10;
  }

  lemma DigitsAreHex(n: nat)
    requires n < 16
    ensures IsHexDigit(DIGITS[n])
  {
  }

  /** What bytes are written as is hexadecimal, of twice their number. */
  lemma {:induction false} WrittenIsHex(bytes: seq<Byte>)
    ensures |HexOf(bytes)| == 2 * |bytes| && IsHex(HexOf(bytes))
  {
    if bytes != [] {
      var n := bytes[0] as int;
      WrittenIsHex(bytes[1..]);
      DigitsAreHex(n / 16);
      DigitsAreHex(n % 16);
    }
  }

  /** Every hexadecimal text of even length is what some bytes are written as. */
  lemma {:induction false} HexIsWritten(s: string) returns (bytes: seq<Byte>)
    requires IsHex(s) && |s| % 2 == 0
    ensures HexOf(bytes) == s && 2 * |bytes| == |s|
    decreases |s|
  {
    hide IsHexDigit;
    if s == "" {
      bytes := [];
    } else {
      var high := DigitOf(s[0]);
      var low := DigitOf(s[1]);
      var rest := HexIsWritten(s[2..]);
      var byte := (16 * high + low) as Byte;
      bytes := [byte] + rest;
      assert bytes[1..] == rest && bytes[0] == byte;
      assert byte as int / 16 == high && byte as int % 16 == low;
      assert s == [s[0], s[1]] + s[2..];
    }
  }
}
