/** Runs of decimal digits and the numbers they stand for. */
module Numerals {

  predicate IsDigit(c: char) {
    '0' <= c <= '9'
  }

  predicate AllDigits(ds: string) {
    forall i :: 0 <= i < |ds| ==> IsDigit(ds[i])
  }

  /** The length of the digit run at the start of `s`. */
  function DigitRun(s: string): (n: nat)
    ensures n <= |s| && AllDigits(s[..n])
    ensures n < |s| ==> !IsDigit(s[n])
  {
    if s == "" || !IsDigit(s[0]) then 0
    else
      var k := DigitRun(s[1..]);
      assert forall i :: 0 <= i < k ==> s[i + 1] == s[1..][..k][i];
      1 + k
  }

  function ValueOf(ds: string): nat
    requires AllDigits(ds)
  {
    if ds == "" then 0
    else 10 * ValueOf(ds[..|ds| - 1]) + (ds[|ds| - 1] as nat - '0' as nat)
  }

  function Pow10(n: nat): (p: nat)
    ensures p >= 1
  {
    if n == 0 then 1 else 10 * Pow10(n - 1)
  }
}
