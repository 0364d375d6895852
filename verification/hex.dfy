/** The hexadecimal-key test used to tell a raw pre-shared key from a passphrase. */
module Hex {

  /** The characters of Python's `string.hexdigits`, in its order. */
  const HexDigits: string := "0123456789abcdefABCDEF"

  predicate IsHexDigit(c: char) {
    c in HexDigits
  }

  /** The three ASCII ranges of hexadecimal digits. */
  predicate InHexRanges(c: char) {
    '0' <= c <= '9' || 'a' <= c <= 'f' || 'A' <= c <= 'F'
  }

  /** Membership in `string.hexdigits` is exactly the three ASCII ranges. */
  lemma HexDigitRanges(c: char)
    ensures IsHexDigit(c) <==> InHexRanges(c)
  {
    if '0' <= c <= '9' {
      assert HexDigits[c as int - '0' as int] == c;
    } else if 'a' <= c <= 'f' {
      assert HexDigits[10 + c as int - 'a' as int] == c;
    } else if 'A' <= c <= 'F' {
      assert HexDigits[16 + c as int - 'A' as int] == c;
    }
  }

  /** Whether every character of `data` is one of `string.hexdigits`, checked
      from the first character on. */
  function IsHexString(data: string): (r: bool)
    ensures r <==> forall i :: 0 <= i < |data| ==> IsHexDigit(data[i])
  {
    if |data| == 0 then true
    else IsHexDigit(data[0]) && IsHexString(data[1..])
  }

  /** `all` over nothing is true: the empty string passes the test. */
  lemma EmptyIsHex()
    ensures IsHexString("")
  {}

  /** One character outside the hexadecimal digits is enough to fail the test. */
  lemma NonHexCharFails(data: string, i: int)
    requires 0 <= i < |data| && !InHexRanges(data[i])
    ensures !IsHexString(data)
  {
    HexDigitRanges(data[i]);
  }
}
