/**
 * ASCII decimal digits, as both `int()` and `strptime`'s `\d` read them.
 */
module Digits {

  predicate IsDigit(c: char) {
    '0' <= c <= '9'
  }

  function DigitValue(c: char): (n: nat)
    requires IsDigit(c)
    ensures n < 10
  {
    c as int - '0' as int
  }
}
