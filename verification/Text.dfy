/** Decimal numbers in texts, shared by the device names and the version numbers. */
module Text {

  predicate IsDigit(c: char) { '0' <= c <= '9' }

  predicate AllDigits(s: string) { forall i :: 0 <= i < |s| ==> IsDigit(s[i]) }

  /** Decimal digits without a leading zero; `0` itself is allowed. */
  predicate Canonical(s: string) {
    s != [] && AllDigits(s) && (|s| == 1 || s[0] != '0')
  }

  /** `take_while(is_ascii_digit).count()`. */
  function DigitRun(s: string): (n: nat)
    ensures n <= |s| && AllDigits(s[..n]) && (n < |s| ==> !IsDigit(s[n]))
  {
    if s == [] || !IsDigit(s[0]) then 0 else 1 + DigitRun(s[1..])
  }

  /** A digit run ends exactly where a non-digit or the end of the text follows it. */
  lemma {:induction false} DigitRunOfSplit(digits: string, rest: string)
    requires AllDigits(digits) && (rest == [] || !IsDigit(rest[0]))
    ensures DigitRun(digits + rest) == |digits|
  {
    if digits == [] {
      assert digits + rest == rest;
    } else {
      assert (digits + rest)[1..] == digits[1..] + rest;
      DigitRunOfSplit(digits[1..], rest);
    }
  }
}
