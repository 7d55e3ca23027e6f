/** The UTF-8 form of a code point, section 3 of RFC 3629; one character stands for one octet. */
module Utf8 {
  function Octet(n: nat): char
    requires n < 0x100
  {
    n as char
  }

  function Encoded(cp: nat): (r: string)
    requires cp < 0x11_0000
    ensures 1 <= |r| <= 4
  {
    if cp < 0x80 then [Octet(cp)]
    else if cp < 0x800 then [Octet(0xC0 + cp / 0x40), Octet(0x80 + cp % 0x40)]
    else if cp < 0x1_0000 then
      [Octet(0xE0 + cp / 0x1000), Octet(0x80 + cp / 0x40 % 0x40), Octet(0x80 + cp % 0x40)]
    else
      [Octet(0xF0 + cp / 0x4_0000), Octet(0x80 + cp / 0x1000 % 0x40), Octet(0x80 + cp / 0x40 % 0x40),
       Octet(0x80 + cp % 0x40)]
  }

  predicate IsTail(c: char) {
    0x80 <= c as nat < 0xC0
  }

  /** The shape of a sequence: the first octet tells how many continuation octets follow. */
  predicate IsSequence(s: string) {
    || (|s| == 1 && s[0] as nat < 0x80)
    || (|s| == 2 && 0xC0 <= s[0] as nat < 0xE0 && IsTail(s[1]))
    || (|s| == 3 && 0xE0 <= s[0] as nat < 0xF0 && IsTail(s[1]) && IsTail(s[2]))
    || (|s| == 4 && 0xF0 <= s[0] as nat < 0xF8 && IsTail(s[1]) && IsTail(s[2]) && IsTail(s[3]))
  }

  /** The bits that a sequence carries. */
  function CodePoint(s: string): nat
    requires IsSequence(s)
  {
    if |s| == 1 then s[0] as nat
    else if |s| == 2 then (s[0] as nat - 0xC0) * 0x40 + (s[1] as nat - 0x80)
    else if |s| == 3 then (s[0] as nat - 0xE0) * 0x1000 + (s[1] as nat - 0x80) * 0x40 + (s[2] as nat - 0x80)
    else
      (s[0] as nat - 0xF0) * 0x4_0000 + (s[1] as nat - 0x80) * 0x1000 + (s[2] as nat - 0x80) * 0x40
      + (s[3] as nat - 0x80)
  }

  /** The encoding is a sequence for its code point, and no sequence for it is shorter. */
  lemma {:induction false} EncodedIsShortest(cp: nat, other: string)
    requires cp < 0x11_0000
    ensures IsSequence(Encoded(cp)) && CodePoint(Encoded(cp)) == cp
    ensures IsSequence(other) && CodePoint(other) == cp ==> |Encoded(cp)| <= |other|
  {
    var q, q2 := cp / 0x40, cp / 0x1000;
    assert q / 0x40 == q2 && q2 / 0x40 == cp / 0x4_0000;
    assert cp == q * 0x40 + cp % 0x40 && q == q2 * 0x40 + q % 0x40 && q2 == q2 / 0x40 * 0x40 + q2 % 0x40;
  }
}
