/** Properties of string literals: what escapes stand for, and how much room the contents need. */
module JsonStrings {
  import opened Bytes
  import opened Hex
  import opened JsonSyntax
  import Utf8

  // Unicode scalar values.

  predicate IsScalar(cp: nat) {
    cp < 0x11_0000 && !(0xD800 <= cp <= 0xDFFF)
  }

  /** A scalar value below 0x10000, whatever the case of its hexadecimal digits. */
  lemma {:induction false} OneLiteralUnescaped(h: string, more: string)
    requires |h| == 4 && AllHex(h) && IsScalar(Hex4(h))
    ensures Unescaped("\\u" + h + more) == Before(Utf8.Encoded(Hex4(h)), Unescaped(more))
  {
    var b := "\\u" + h + more;
    assert b[0] == '\\' && b[1] == 'u' && b[2..6] == h && b[6..] == more;
  }

  /** A surrogate pair. */
  lemma {:induction false} PairUnescaped(high: string, low: string, more: string)
    requires |high| == 4 && |low| == 4 && IsHighSurrogate(Hex4(high)) && IsLowSurrogate(Hex4(low))
    ensures Unescaped("\\u" + high + "\\u" + low + more) ==
      Before(Utf8.Encoded(Paired(Hex4(high), Hex4(low))), Unescaped(more))
  {
    var b := "\\u" + high + "\\u" + low + more;
    assert b[0] == '\\' && b[1] == 'u' && b[2..6] == high && b[6] == '\\' && b[7] == 'u';
    assert b[8..12] == low && b[12..] == more;
  }

  /** Section 7 of RFC 8259: one literal, or two for a value that needs a surrogate pair. */
  function ScalarLiteral(cp: nat): string
    requires IsScalar(cp)
  {
    if cp < 0x1_0000 then "\\u" + HexDigits(cp, 4)
    else
      var v := cp - 0x1_0000;
      "\\u" + HexDigits(0xD800 + v / 0x400, 4) + "\\u" + HexDigits(0xDC00 + v % 0x400, 4)
  }

  lemma FourDigits(n: nat)
    requires n < 0x1_0000
    ensures Hex4(HexDigits(n, 4)) == n
  {
    var h := HexDigits(n, 4);
    assert HexDigits(n / 16, 3) == HexDigits(n / 16 / 16, 2) + [HexUpper(n / 16 % 16)];
    assert HexDigits(n / 16 / 16, 2) == HexDigits(n / 16 / 16 / 16, 1) + [HexUpper(n / 16 / 16 % 16)];
    assert HexDigits(n / 16 / 16 / 16, 1) == HexDigits(n / 16 / 16 / 16 / 16, 0) + [HexUpper(n / 16 / 16 / 16 % 16)];
    assert h[3] == HexUpper(n % 16) && h[2] == HexUpper(n / 16 % 16);
    assert h[1] == HexUpper(n / 16 / 16 % 16) && h[0] == HexUpper(n / 16 / 16 / 16 % 16);
    FourNibbles(n);
  }

  lemma FourNibbles(n: nat)
    requires n < 0x1_0000
    ensures n / 16 / 16 / 16 % 16 * 0x1000 + n / 16 / 16 % 16 * 0x100 + n / 16 % 16 * 0x10 + n % 16 == n
  {
    var a, b, c := n / 16, n / 16 / 16, n / 16 / 16 / 16;
    assert n == 16 * a + n % 16 && a == 16 * b + a % 16 && b == 16 * c + b % 16 && c < 16;
  }

  /** Every Unicode scalar value written as an escape becomes its UTF-8 form. */
  lemma {:induction false} ScalarUnescaped(cp: nat, more: string)
    requires IsScalar(cp)
    ensures Unescaped(ScalarLiteral(cp) + more) == Before(Utf8.Encoded(cp), Unescaped(more))
  {
    hide HexDigits, Hex4, Unescaped, Utf8.Encoded, Paired;
    if cp < 0x1_0000 {
      FourDigits(cp);
      OneLiteralUnescaped(HexDigits(cp, 4), more);
    } else {
      var v := cp - 0x1_0000;
      var high, low := 0xD800 + v / 0x400, 0xDC00 + v % 0x400;
      FourDigits(high);
      FourDigits(low);
      PairOf(cp);
      PairUnescaped(HexDigits(high, 4), HexDigits(low, 4), more);
    }
  }

  /** A pair stands for the value it was made from. */
  lemma PairOf(cp: nat)
    requires 0x1_0000 <= cp < 0x11_0000
    ensures var v := cp - 0x1_0000;
      && IsHighSurrogate(0xD800 + v / 0x400) && IsLowSurrogate(0xDC00 + v % 0x400)
      && Paired(0xD800 + v / 0x400, 0xDC00 + v % 0x400) == cp
  {
  }

  // Room for the contents.

  /** The backslashes that the first scan skips; `inPair` when the first character is the one behind such a
      backslash. */
  function Skipped(b: string, inPair: bool): (n: nat)
    ensures n <= |b|
  {
    if b == "" then 0
    else if inPair then Skipped(b[1..], false)
    else if b[0] == '\\' then 1 + Skipped(b[1..], true)
    else Skipped(b[1..], false)
  }

  /** Whether the character behind the first `k` belongs to a pair. */
  function After(b: string, inPair: bool, k: nat): bool
    requires k <= |b|
    decreases k, b, inPair
  {
    if k == 0 then inPair else After(b[1..], !inPair && b[0] == '\\', k - 1)
  }

  /** The first scan has passed all of `b` and stands at the closing quotation mark. */
  predicate IsPaired(b: string, inPair: bool) {
    !After(b, inPair, |b|)
  }

  lemma {:induction false} AfterMore(b: string, inPair: bool, j: nat, k: nat)
    requires j + k <= |b|
    ensures After(b, inPair, j + k) == After(b[j..], After(b, inPair, j), k)
    decreases j
  {
    if j == 0 {
      assert b[0..] == b;
    } else {
      AfterMore(b[1..], !inPair && b[0] == '\\', j - 1, k);
      assert b[1..][j - 1..] == b[j..];
    }
  }

  /** Characters that are no backslashes are not skipped. */
  lemma {:induction false} SkippedPlain(b: string, k: nat)
    requires k <= |b| && forall i :: 0 <= i < k ==> b[i] != '\\'
    ensures Skipped(b, false) == Skipped(b[k..], false) && !After(b, false, k)
    decreases k
  {
    if k == 0 {
      assert b[0..] == b;
    } else {
      assert b[k..] == b[1..][k - 1..];
      SkippedPlain(b[1..], k - 1);
    }
  }

  lemma {:induction false} SkippedSome(b: string, inPair: bool, k: nat)
    requires k <= |b|
    ensures Skipped(b, inPair) <= k + Skipped(b[k..], After(b, inPair, k))
    decreases k
  {
    if k == 0 {
      assert b[0..] == b;
    } else {
      assert b[k..] == b[1..][k - 1..];
      SkippedSome(b[1..], !inPair && b[0] == '\\', k - 1);
    }
  }

  lemma SkippedEscape(b: string, inPair: bool)
    requires |b| >= 2 && b[0] == '\\'
    ensures Skipped(b, inPair) <= 1 + Skipped(b[2..], After(b, inPair, 2))
    ensures b[1] != '\\' ==> !After(b, inPair, 2)
  {
    assert b[1..][1..] == b[2..];
    assert After(b, inPair, 2) == After(b[1..], !inPair, 1) == After(b[2..], inPair && b[1] == '\\', 0);
  }

  /** A literal needs no more room than its characters without the skipped backslashes. */
  lemma LiteralFits(b: string, inPair: bool)
    requires |b| >= 2 && b[0] == '\\' && b[1] == 'u' && Utf16Literal(b).Some?
    ensures var (cp, n) := Utf16Literal(b).value;
      |Utf8.Encoded(cp)| + Skipped(b, inPair) <= n + Skipped(b[n..], After(b, inPair, n))
  {
    hide Skipped, After;
    var (cp, n) := Utf16Literal(b).value;
    SkippedEscape(b, inPair);
    AfterMore(b, inPair, 2, 4);
    assert b[2..][4..] == b[6..];
    if cp < 0x80 {
      SkippedSome(b[2..], false, 4);
    } else {
      HexIsPlain(b[2..6]);
      SkippedPlain(b[2..], 4);
      if n == 12 {
        HexIsPlain(b[8..12]);
        SkippedEscape(b[6..], false);
        assert b[6..][2..] == b[8..] && b[8..][4..] == b[12..];
        SkippedPlain(b[8..], 4);
        AfterMore(b, inPair, 6, 6);
        AfterMore(b[6..], false, 2, 4);
      }
    }
  }

  lemma HexIsPlain(h: string)
    requires |h| == 4 && Hex4(h) != 0
    ensures AllHex(h) && forall i :: 0 <= i < 4 ==> h[i] != '\\'
  {
  }

  /** One unit never needs more room than the first scan set aside for it. */
  lemma UnitFits(b: string, inPair: bool)
    requires b != "" && Unit(b).Some? && IsPaired(b, inPair)
    ensures var (o, n) := Unit(b).value;
      && |o| + Skipped(b, inPair) <= n + Skipped(b[n..], After(b, inPair, n))
      && IsPaired(b[n..], After(b, inPair, n))
  {
    var n := Unit(b).value.1;
    AfterMore(b, inPair, n, |b| - n);
    if b[0] != '\\' || |b| == 1 {
      assert After(b, inPair, 1) == After(b[1..], !inPair && b[0] == '\\', 0);
    } else if b[1] == 'u' {
      LiteralFits(b, inPair);
    } else {
      SkippedEscape(b, inPair);
    }
  }

  /** The contents and a terminator fit the allocation: the characters between the quotation marks without the
      skipped backslashes, plus two. */
  lemma {:induction false} UnescapedFits(b: string, inPair: bool)
    requires IsPaired(b, inPair)
    ensures Unescaped(b).Some? ==> |Unescaped(b).value| + Skipped(b, inPair) <= |b|
    decreases |b|
  {
    if b != "" && Unit(b).Some? {
      var n := Unit(b).value.1;
      UnitFits(b, inPair);
      UnescapedFits(b[n..], After(b, inPair, n));
    }
  }

  /** The closing quotation mark is never the second half of a pair. */
  lemma {:induction false} ClosedIsPaired(t: string)
    requires ClosingQuote(t).Some?
    ensures IsPaired(t[..ClosingQuote(t).value], false)
    decreases |t|
  {
    var b := t[..ClosingQuote(t).value];
    if t[0] != '\"' {
      var step := if t[0] == '\\' then 2 else 1;
      ClosedIsPaired(t[step..]);
      assert b[step..] == t[step..][..ClosingQuote(t[step..]).value];
      assert After(b, false, step) == false by {
        if step == 2 {
          assert After(b, false, 2) == After(b[1..], true, 1) == After(b[1..][1..], false, 0);
        } else {
          assert After(b, false, 1) == After(b[1..], false, 0);
        }
      }
      AfterMore(b, false, step, |b| - step);
    }
  }

  lemma {:induction false} SkippedConcat(a: string, b: string, inPair: bool)
    ensures Skipped(a + b, inPair) == Skipped(a, inPair) + Skipped(b, After(a, inPair, |a|))
    ensures After(a + b, inPair, |a + b|) == After(b, After(a, inPair, |a|), |b|)
    decreases |a|
  {
    if a == "" {
      assert a + b == b;
    } else {
      assert (a + b)[0] == a[0] && (a + b)[1..] == a[1..] + b;
      SkippedConcat(a[1..], b, !inPair && a[0] == '\\');
    }
  }

  /** One more character in the first scan. */
  lemma OneMoreScanned(a: string, c: char)
    requires IsPaired(a, false) && c != '\\'
    ensures IsPaired(a + [c], false) && Skipped(a + [c], false) == Skipped(a, false)
  {
    SkippedConcat(a, [c], false);
    assert [c][1..] == "";
  }

  /** One more pair in the first scan. */
  lemma OneMorePair(a: string, c: char)
    requires IsPaired(a, false)
    ensures IsPaired(a + ['\\', c], false) && Skipped(a + ['\\', c], false) == Skipped(a, false) + 1
  {
    SkippedConcat(a, ['\\', c], false);
    assert ['\\', c][1..] == [c] && [c][1..] == "";
    assert After(['\\', c], false, 2) == After([c], true, 1) == After("", false, 0);
  }
}
