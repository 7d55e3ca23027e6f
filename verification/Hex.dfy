/** Hexadecimal digits. */
module Hex {
  predicate IsHex(c: char) {
    '0' <= c <= '9' || 'a' <= c <= 'f' || 'A' <= c <= 'F'
  }

  predicate AllHex(s: string) {
    forall i :: 0 <= i < |s| ==> IsHex(s[i])
  }

  function ToLower(c: char): char {
    if 'A' <= c <= 'Z' then c + ('a' - 'A') else c
  }

  function HexValue(c: char): (v: nat)
    requires IsHex(c)
    ensures v < 16
  {
    if ToLower(c) > '9' then 10 + (ToLower(c) as nat - 'a' as nat) else ToLower(c) as nat - '0' as nat
  }

  function HexUpper(n: nat): (c: char)
    requires n < 16
    ensures IsHex(c) && HexValue(c) == n
  {
    if n < 10 then '0' + n as char else 'A' + (n - 10) as char
  }

  function HexLower(n: nat): (c: char)
    requires n < 16
    ensures IsHex(c) && HexValue(c) == n
  {
    if n < 10 then '0' + n as char else 'a' + (n - 10) as char
  }

  /** The last `count` hexadecimal digits of a number. */
  function HexDigits(n: nat, count: nat): (s: string)
    ensures |s| == count && AllHex(s)
    decreases count, n
  {
    if count == 0 then [] else HexDigits(n / 16, count - 1) + [HexUpper(n % 16)]
  }

  /** The number written by a run of hexadecimal digits. */
  function HexNumber(s: string): nat
    requires AllHex(s)
  {
    if s == [] then 0 else 16 * HexNumber(s[..|s| - 1]) + HexValue(s[|s| - 1])
  }
}
