/** The conversion of one escape sequence, byte by byte, into an output buffer. */
module JsonLiterals {
  import opened Bytes
  import opened Hex
  import opened JsonSyntax
  import Utf8

  /** Four hexadecimal digits, accumulated nibble by nibble; zero as soon as one is invalid. */
  method ParseHex4(input: string) returns (h: nat)
    requires |input| == 4
    ensures h == Hex4(input)
  {
    h := 0;
    for i := 0 to 4
      invariant AllHex(input[..i])
      invariant i < 4 ==> h == 16 * HexNumber(input[..i])
      invariant i == 4 ==> h == HexNumber(input)
    {
      if !IsHex(input[i]) {
        return 0;
      }
      assert input[..i + 1][..i] == input[..i];
      h := h + HexValue(input[i]);
      if i < 3 {
        h := h * 16;
      } else {
        assert input[..4] == input;
      }
    }
    HexNumberOfFour(input);
  }

  lemma HexNumberOfFour(s: string)
    requires |s| == 4 && AllHex(s)
    ensures HexNumber(s) == Hex4(s)
  {
    var a, b, c := s[..1], s[..2], s[..3];
    assert s[..3] == c && c[..2] == b && b[..1] == a && a[..0] == "";
    assert HexNumber(a) == 16 * HexNumber("") + HexValue(s[0]);
    assert HexNumber(b) == 16 * HexNumber(a) + HexValue(s[1]);
    assert HexNumber(c) == 16 * HexNumber(b) + HexValue(s[2]);
  }

  /** The low eight bits of a code point. */
  function LowByte(codepoint: nat): byte {
    ByteOf(codepoint % 0x100)
  }

  function CharOf(b: byte): char {
    (b as nat) as char
  }

  lemma TailBits(b: byte)
    ensures ((b | 0x80) & 0xBF) as nat == 0x80 + b as nat % 0x40
  {
  }

  lemma ModMod(n: nat)
    ensures n % 0x100 % 0x40 == n % 0x40
  {
  }

  lemma CharOfIs(b: byte, n: nat)
    requires b as nat == n
    ensures CharOf(b) == Utf8.Octet(n)
  {
  }

  lemma TailOctet(codepoint: nat)
    ensures CharOf((LowByte(codepoint) | 0x80) & 0xBF) == Utf8.Octet(0x80 + codepoint % 0x40)
  {
    hide ByteOf, CharOf;
    var b := LowByte(codepoint);
    ByteOfValue(codepoint % 0x100);
    TailBits(b);
    ModMod(codepoint);
    CharOfIs((b | 0x80) & 0xBF, 0x80 + codepoint % 0x40);
  }

  lemma MarkBits(b: byte)
    ensures b < 0x80 ==> b & 0x7F == b
    ensures b < 0x20 ==> ((b | 0xC0) & 0xFF) as nat == 0xC0 + b as nat
    ensures b < 0x10 ==> ((b | 0xE0) & 0xFF) as nat == 0xE0 + b as nat
    ensures b < 0x08 ==> ((b | 0xF0) & 0xFF) as nat == 0xF0 + b as nat
  {
  }

  /** A code point after dropping six bits `k` times. */
  function Dropped(codepoint: nat, k: nat): nat
    decreases k, codepoint
  {
    if k == 0 then codepoint else Dropped(codepoint, k - 1) / 0x40
  }

  lemma DroppedTwice(cp: nat)
    ensures Dropped(cp, 0) == cp && Dropped(cp, 1) == cp / 0x40 && Dropped(cp, 2) == cp / 0x1000
    ensures Dropped(cp, 3) == cp / 0x4_0000
  {
    assert cp / 0x40 / 0x40 == cp / 0x1000 && cp / 0x1000 / 0x40 == cp / 0x4_0000;
  }

  /** The continuation octets carry six bits each, the last octet the lowest ones. */
  lemma TailOfEncoded(cp: nat, k: nat)
    requires cp < 0x11_0000 && 1 <= k < |Utf8.Encoded(cp)|
    ensures Utf8.Encoded(cp)[k] == Utf8.Octet(0x80 + Dropped(cp, |Utf8.Encoded(cp)| - 1 - k) % 0x40)
  {
    DroppedTwice(cp);
  }

  lemma HeadOfEncoded(cp: nat)
    requires cp < 0x11_0000
    ensures var n, d := |Utf8.Encoded(cp)|, Dropped(cp, |Utf8.Encoded(cp)| - 1);
      && (n == 1 ==> d < 0x80) && (n == 2 ==> d < 0x20) && (n == 3 ==> d < 0x10) && (n == 4 ==> d < 0x08)
      && Utf8.Encoded(cp)[0] == Utf8.Octet(
        (if n == 1 then 0 else if n == 2 then 0xC0 else if n == 3 then 0xE0 else 0xF0) + d)
  {
    DroppedTwice(cp);
  }

  /** Length and first octet mark of the encoding. */
  method Utf8Length(codepoint: nat) returns (utf8_length: nat, first_byte_mark: byte)
    requires codepoint < 0x11_0000
    ensures utf8_length == |Utf8.Encoded(codepoint)|
    ensures utf8_length == 2 ==> first_byte_mark == 0xC0
    ensures utf8_length == 3 ==> first_byte_mark == 0xE0
    ensures utf8_length == 4 ==> first_byte_mark == 0xF0
  {
    first_byte_mark := 0;
    if codepoint < 0x80 {
      utf8_length := 1;
    } else if codepoint < 0x800 {
      utf8_length, first_byte_mark := 2, 0xC0;
    } else if codepoint < 0x1_0000 {
      utf8_length, first_byte_mark := 3, 0xE0;
    } else {
      utf8_length, first_byte_mark := 4, 0xF0;
    }
  }

  /** The octet that starts a sequence of `n` octets. */
  method FirstOctet(codepoint: nat, n: nat, mark: byte) returns (c: char)
    requires 1 <= n <= 4
    requires n == 1 ==> codepoint < 0x80
    requires n == 2 ==> codepoint < 0x20 && mark == 0xC0
    requires n == 3 ==> codepoint < 0x10 && mark == 0xE0
    requires n == 4 ==> codepoint < 0x08 && mark == 0xF0
    ensures c == Utf8.Octet((if n == 1 then 0 else if n == 2 then 0xC0 else if n == 3 then 0xE0 else 0xF0) + codepoint)
  {
    hide ByteOf, CharOf;
    var low := LowByte(codepoint);
    ByteOfValue(codepoint % 0x100);
    MarkBits(low);
    if n > 1 {
      CharOfIs((low | mark) & 0xFF, (if n == 2 then 0xC0 else if n == 3 then 0xE0 else 0xF0) + codepoint);
      c := CharOf((low | mark) & 0xFF);
    } else {
      CharOfIs(low & 0x7F, codepoint);
      c := CharOf(low & 0x7F);
    }
  }

  /** Writes the encoding at `at`, the last octet first. */
  method PutUtf8(cp: nat, output: array<char>, at: nat) returns (utf8_length: nat)
    requires cp < 0x11_0000 && at + |Utf8.Encoded(cp)| <= output.Length
    modifies output
    ensures utf8_length == |Utf8.Encoded(cp)|
    ensures output[..at + utf8_length] == old(output[..at]) + Utf8.Encoded(cp)
  {
    hide Utf8.Encoded, Utf8.Octet, Dropped;
    var first_byte_mark;
    utf8_length, first_byte_mark := Utf8Length(cp);
    var codepoint, utf8_position := cp, utf8_length - 1;
    DroppedTwice(cp);
    while utf8_position > 0
      invariant 0 <= utf8_position < utf8_length
      invariant codepoint == Dropped(cp, utf8_length - 1 - utf8_position)
      invariant forall k :: utf8_position < k < utf8_length ==> output[at + k] == Utf8.Encoded(cp)[k]
      invariant forall k :: 0 <= k < at ==> output[k] == old(output[k])
    {
      TailOfEncoded(cp, utf8_position);
      TailOctet(codepoint);
      output[at + utf8_position] := CharOf((LowByte(codepoint) | 0x80) & 0xBF);
      DroppedNext(cp, utf8_length - 1 - utf8_position);
      codepoint := codepoint / 0x40;
      utf8_position := utf8_position - 1;
    }
    HeadOfEncoded(cp);
    output[at] := FirstOctet(codepoint, utf8_length, first_byte_mark);
  }

  lemma DroppedNext(cp: nat, k: nat)
    ensures Dropped(cp, k + 1) == Dropped(cp, k) / 0x40
  {
  }

  /** Converts the literal at the start of `input`, the contents up to the closing quotation mark; zero when it
      is not valid. */
  method Utf16LiteralToUtf8(input: string, output: array<char>, at: nat)
    returns (sequence_length: nat, utf8_length: nat)
    requires Utf16Literal(input).Some? ==> at + |Utf8.Encoded(Utf16Literal(input).value.0)| <= output.Length
    modifies output
    ensures sequence_length == (if Utf16Literal(input).Some? then Utf16Literal(input).value.1 else 0)
    ensures Utf16Literal(input).Some? ==>
      && utf8_length == |Utf8.Encoded(Utf16Literal(input).value.0)|
      && output[..at + utf8_length] == old(output[..at]) + Utf8.Encoded(Utf16Literal(input).value.0)
  {
    hide Utf8.Encoded, Hex4;
    if |input| < 6 {
      return 0, 0;
    }
    var codepoint;
    var first_code := ParseHex4(input[2..6]);
    if 0xDC00 <= first_code <= 0xDFFF {
      return 0, 0;
    }
    if 0xD800 <= first_code <= 0xDBFF {
      sequence_length := 12;
      if |input| < 12 {
        return 0, 0;
      }
      if input[6] != '\\' || input[7] != 'u' {
        return 0, 0;
      }
      var second_code := ParseHex4(input[8..12]);
      if second_code < 0xDC00 || second_code > 0xDFFF {
        return 0, 0;
      }
      codepoint := 0x1_0000 + (first_code % 0x400) * 0x400 + second_code % 0x400;
    } else {
      sequence_length := 6;
      codepoint := first_code;
    }
    utf8_length := PutUtf8(codepoint, output, at);
  }
}
