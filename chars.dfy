/** Character classes used by the vendor-extraction rules and by `str.split()`.
    Python's `\d`, `\s` and `str.isspace` are Unicode-aware; this model
    restricts them to their ASCII members. */
module Chars {

  /** `\d`, restricted to ASCII digits. */
  predicate IsDigit(c: char) {
    '0' <= c <= '9'
  }

  /** `\s` and `str.split()` whitespace, restricted to ASCII: tab, line feed,
      vertical tab, form feed, carriage return, the four information
      separators U+001C..U+001F, and space. */
  predicate IsSpace(c: char) {
    c == ' ' || '\t' <= c <= '\r' || '\U{1C}' <= c <= '\U{1F}'
  }

  datatype CharClass = Digit | Space | Star | NonSpace

  predicate In(k: CharClass, c: char) {
    match k
    case Digit => IsDigit(c)
    case Space => IsSpace(c)
    case Star => c == '*'
    case NonSpace => !IsSpace(c)
  }

  predicate AllIn(k: CharClass, s: string) {
    forall i :: 0 <= i < |s| ==> In(k, s[i])
  }

  /** Length of the longest prefix of `s` made only of characters of class `k`
      (what a greedy `k*` consumes). */
  function RunLen(k: CharClass, s: string): (n: nat)
    ensures n <= |s|
    ensures AllIn(k, s[..n])
    ensures n < |s| ==> !In(k, s[n])
  {
    if |s| == 0 || !In(k, s[0]) then 0 else 1 + RunLen(k, s[1..])
  }
}
