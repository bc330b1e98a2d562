/** Integer division as the program's language does it. */
module Ints {

  /** Division and remainder of int64's, toward zero. */
  function Quotient(a: int, b: int): int
    requires b > 0
  {
    if a >= 0 then a / b else -(-a / b)
  }

  function Remainder(a: int, b: int): int
    requires b > 0
  {
    a - Quotient(a, b) * b
  }

  /** The quotient less one where a remainder is negative rounds down. */
  lemma {:induction false} RoundsDown(a: int, b: int)
    requires b > 0
    ensures var q := if Remainder(a, b) < 0 then Quotient(a, b) - 1 else Quotient(a, b);
            q * b <= a < (q + 1) * b
  {
    if a >= 0 {
      assert a == (a / b) * b + a % b;
    } else {
      assert -a == (-a / b) * b + -a % b;
    }
  }

  /** strconv.Itoa, of no negative number. */
  function Itoa(n: nat): (s: string)
    ensures s != "" && forall i :: 0 <= i < |s| ==> '0' <= s[i] <= '9'
  {
    var digit := ['0' + (n % 10) as char];
    if n < 10 then digit else Itoa(n / 10) + digit
  }

  lemma {:induction false} ItoaInjective(m: nat, n: nat)
    requires Itoa(m) == Itoa(n)
    ensures m == n
  {
    var s, t := Itoa(m), Itoa(n);
    assert s[|s| - 1] == t[|t| - 1];
    if m >= 10 && n >= 10 {
      assert s[..|s| - 1] == Itoa(m / 10) && t[..|t| - 1] == Itoa(n / 10);
      ItoaInjective(m / 10, n / 10);
    }
  }
}
