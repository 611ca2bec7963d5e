/** Numbers written in decimal. */
module Decimal {
  function Dec(n: nat): (s: string)
    ensures s != ""
  {
    if n < 10 then [n as char + '0'] else Dec(n / 10) + [(n % 10) as char + '0']
  }

  /** What a string of digits says. */
  function Value(s: string): int {
    if s == "" then 0 else Value(s[..|s| - 1]) * 10 + (s[|s| - 1] as int - '0' as int)
  }

  lemma {:induction false} ValueDec(n: nat)
    ensures Value(Dec(n)) == n
  {
    if n >= 10 {
      ValueDec(n / 10);
    } else {
      assert Dec(n)[..0] == "";
    }
  }

  lemma {:induction false} DecInjective(m: nat, n: nat)
    requires Dec(m) == Dec(n)
    ensures m == n
  {
    ValueDec(m);
    ValueDec(n);
  }
}
