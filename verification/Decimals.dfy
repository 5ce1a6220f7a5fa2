/** Natural numbers in decimal, as `%d` and the Omega Calculator write them. */
module Decimals {
  function Digits(n: nat): string {
    if n < 10 then ['0' + n as char] else Digits(n / 10) + ['0' + (n % 10) as char]
  }

  lemma {:induction false} OnlyDigits(n: nat)
    ensures Digits(n) != "" && forall i :: 0 <= i < |Digits(n)| ==> '0' <= Digits(n)[i] <= '9'
  {
    if n < 10 {
    } else {
      OnlyDigits(n / 10);
    }
  }
}
