/** Types and functions shared by the models. */
module Common {
  datatype Option<+T> = None | Some(value: T)

  function Digit(d: nat): char
    requires d < 10
  {
    '0' + d as char
  }

  /** A number in decimal, without leading zeros. */
  function Digits(n: nat): (s: string)
    ensures |s| >= 1
  {
    if n < 10 then [Digit(n)] else Digits(n / 10) + [Digit(n % 10)]
  }

  /** The number that decimal digits stand for. */
  function Number(s: string): int {
    if s == "" then 0 else 10 * Number(s[..|s| - 1]) + (s[|s| - 1] as int - '0' as int)
  }

  lemma {:induction false} DigitsReadBack(n: nat)
    ensures Number(Digits(n)) == n
    ensures forall c | c in Digits(n) :: '0' <= c <= '9'
    ensures Digits(n)[0] == '0' ==> n == 0
  {
    if n < 10 {
      assert Digits(n)[..0] == "";
    } else {
      DigitsReadBack(n / 10);
      assert Digits(n)[..|Digits(n)| - 1] == Digits(n / 10);
    }
  }
}
