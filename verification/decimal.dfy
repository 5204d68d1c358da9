/** Python's str() of an integer: the decimal text that the f-strings of the
    model's variable names are made of, and int() of one character. */
module Decimal {
  import opened Wrappers

  /** The character of the decimal digit d. */
  function DigitChar(d: int): (ch: char)
    requires 0 <= d <= 9
    ensures '0' <= ch <= '9'
  {
    (48 + d) as char
  }

  /** int() of a one-character string: Some digit value, or None where
      Python raises ValueError. */
  function DigitValue(ch: char): (r: Option<int>)
    ensures r.Some? <==> '0' <= ch <= '9'
    ensures r.Some? ==> 0 <= r.value <= 9 && DigitChar(r.value) == ch
  {
    if '0' <= ch <= '9' then Some(ch as int - 48) else None
  }

  /** The decimal text of a natural number, most significant digit first. */
  function NatString(x: nat): (s: string)
    ensures 1 <= |s|
    ensures |s| == 1 <==> x <= 9
  {
    if x <= 9 then [DigitChar(x)] else NatString(x / 10) + [DigitChar(x % 10)]
  }

  /** str(x) for any integer x: a leading '-' for negative numbers. */
  function IntString(x: int): string {
    if x < 0 then "-" + NatString(-x) else NatString(x)
  }

  /** str(x) is one character exactly when x is a single digit, and that
      character is the digit; int() reads it back. */
  lemma IntStringSingleDigit(x: int)
    ensures 1 <= |IntString(x)|
    ensures |IntString(x)| == 1 <==> 0 <= x <= 9
    ensures 0 <= x <= 9 ==> IntString(x) == [DigitChar(x)] && DigitValue(DigitChar(x)) == Some(x)
  {
  }
}
