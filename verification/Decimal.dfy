/** Decimal texts of integers, as `%d` prints them. */
module Decimal {
  predicate IsDigit(c: char) {
    '0' <= c <= '9'
  }

  function DigitOf(n: nat): (c: char)
    requires n < 10
    ensures IsDigit(c)
  {
    '0' + n as char
  }

  predicate AllDigits(s: string) {
    forall i :: 0 <= i < |s| ==> IsDigit(s[i])
  }

  function Digits(n: nat): (s: string)
    ensures s != [] && AllDigits(s)
    decreases n
  {
    if n < 10 then [DigitOf(n)] else Digits(n / 10) + [DigitOf(n % 10)]
  }

  function Text(n: int): (s: string) {
    if n < 0 then "-" + Digits(-n) else Digits(n)
  }

  /** The number a text of digits stands for. */
  function ValueOf(s: string): nat
    requires AllDigits(s)
  {
    if s == [] then 0 else 10 * ValueOf(s[..|s| - 1]) + (s[|s| - 1] - '0') as nat
  }

  lemma {:induction false} DigitsValue(n: nat)
    ensures ValueOf(Digits(n)) == n
    decreases n
  {
    var s := Digits(n);
    if n < 10 {
      assert s[..0] == [];
    } else {
      assert s[..|s| - 1] == Digits(n / 10);
      DigitsValue(n / 10);
    }
  }

  /** A number below a power of ten has at most that many digits. */
  lemma {:induction false} DigitsLength(n: nat, k: nat)
    requires k >= 1 && n < Power10(k)
    ensures |Digits(n)| <= k
    decreases n
  {
    if n >= 10 {
      assert k > 1 by {
        assert Power10(1) == 10 * Power10(0);
      }
      DigitsLength(n / 10, k - 1);
    }
  }

  function Power10(k: nat): (r: nat)
    ensures r >= 1
  {
    if k == 0 then 1 else 10 * Power10(k - 1)
  }
}
