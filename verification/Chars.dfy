/** Digits in base 16, and white space. */
module Chars {
  import opened Options

  /** std::isspace in the C locale. */
  predicate IsBlank(c: char) { c == ' ' || 9 <= c as int <= 13 }

  const HEX_DIGITS := "0123456789abcdef"

  function HexDigit(n: nat): char
    requires n < 16
  {
    HEX_DIGITS[n]
  }

  function HexValue(c: char): Option<nat> {
    if '0' <= c <= '9' then Some(c as int - '0' as int)
    else if 'a' <= c <= 'f' then Some(c as int - 'a' as int + 10)
    else if 'A' <= c <= 'F' then Some(c as int - 'A' as int + 10)
    else None
  }

  lemma HexDigitValue(n: nat)
    requires n < 16
    ensures HexValue(HexDigit(n)) == Some(n)
  {
  }

  /** Either case of the sixteen digits, each with its place as its value. */
  lemma HexTable(c: char, n: nat)
    ensures HexValue(c) == Some(n) <==> n < 16 && (c == "0123456789abcdef"[n] || c == "0123456789ABCDEF"[n])
    ensures n < 16 ==> HexDigit(n) == "0123456789abcdef"[n]
  {
    var v := HexValue(c);
    if v.Some? {
      assert c == "0123456789abcdef"[v.value] || c == "0123456789ABCDEF"[v.value];
    }
  }
}
