/** The example of section 1.3 of RFC 6455, computed pass by pass: two blocks, one hundred and sixty passes. */
module AcceptExample {
  import opened AcceptKey
  import opened Bytes
  import opened CText
  import opened HttpText
  import opened Sha1Digest
  import Base64Text

  const KEY := "dGhlIHNhbXBsZSBub25jZQ=="
  const ACCEPT := "s3pPLMBiTxaQ9kYGzzhZRbK+xOo="

  // The message and its blocks.

  lemma ByteOfChar(c: char, b: byte)
    requires c as nat == b as nat
    ensures ByteOf(c as nat) == b
  {
    ByteOfUnique(b);
  }

  /** Four characters of a text make up one word of the block that starts with it. */
  lemma TextWord(s: string, block: seq<byte>, i: nat, a: byte, b: byte, c: byte, d: byte)
    requires IsOctets(s) && Octets(s) <= block && 4 * i + 4 <= |s|
    requires s[4 * i] as nat == a as nat && s[4 * i + 1] as nat == b as nat
    requires s[4 * i + 2] as nat == c as nat && s[4 * i + 3] as nat == d as nat
    ensures WordAt(block, i) == (a as word << 24) | (b as word << 16) | (c as word << 8) | (d as word)
  {
    ByteOfChar(s[4 * i], a);
    ByteOfChar(s[4 * i + 1], b);
    ByteOfChar(s[4 * i + 2], c);
    ByteOfChar(s[4 * i + 3], d);
    assert block[4 * i] == Octets(s)[4 * i] && block[4 * i + 1] == Octets(s)[4 * i + 1];
    assert block[4 * i + 2] == Octets(s)[4 * i + 2] && block[4 * i + 3] == Octets(s)[4 * i + 3];
  }

  /** The block starts with the example's message. */
  ghost predicate Begins(block: seq<byte>) {
    |block| == 64 && IsOctets(KEY + MAGIC_KEY) && Octets(KEY + MAGIC_KEY) <= block
  }

  lemma Word0(block: seq<byte>)
    requires Begins(block)
    ensures |block| == 64 && WordAt(block, 0) == 0x6447686C
  {
    hide WordAt, Octets, IsOctets;
    TextWord(KEY + MAGIC_KEY, block, 0, 0x64, 0x47, 0x68, 0x6C);
  }

  lemma Word1(block: seq<byte>)
    requires Begins(block)
    ensures |block| == 64 && WordAt(block, 1) == 0x49484E68
  {
    hide WordAt, Octets, IsOctets;
    TextWord(KEY + MAGIC_KEY, block, 1, 0x49, 0x48, 0x4E, 0x68);
  }

  lemma Word2(block: seq<byte>)
    requires Begins(block)
    ensures |block| == 64 && WordAt(block, 2) == 0x62584273
  {
    hide WordAt, Octets, IsOctets;
    TextWord(KEY + MAGIC_KEY, block, 2, 0x62, 0x58, 0x42, 0x73);
  }

  lemma Word3(block: seq<byte>)
    requires Begins(block)
    ensures |block| == 64 && WordAt(block, 3) == 0x5A534275
  {
    hide WordAt, Octets, IsOctets;
    TextWord(KEY + MAGIC_KEY, block, 3, 0x5A, 0x53, 0x42, 0x75);
  }

  lemma Word4(block: seq<byte>)
    requires Begins(block)
    ensures |block| == 64 && WordAt(block, 4) == 0x6232356A
  {
    hide WordAt, Octets, IsOctets;
    TextWord(KEY + MAGIC_KEY, block, 4, 0x62, 0x32, 0x35, 0x6A);
  }

  lemma Word5(block: seq<byte>)
    requires Begins(block)
    ensures |block| == 64 && WordAt(block, 5) == 0x5A513D3D
  {
    hide WordAt, Octets, IsOctets;
    TextWord(KEY + MAGIC_KEY, block, 5, 0x5A, 0x51, 0x3D, 0x3D);
  }

  lemma Word6(block: seq<byte>)
    requires Begins(block)
    ensures |block| == 64 && WordAt(block, 6) == 0x32353845
  {
    hide WordAt, Octets, IsOctets;
    TextWord(KEY + MAGIC_KEY, block, 6, 0x32, 0x35, 0x38, 0x45);
  }

  lemma Word7(block: seq<byte>)
    requires Begins(block)
    ensures |block| == 64 && WordAt(block, 7) == 0x41464135
  {
    hide WordAt, Octets, IsOctets;
    TextWord(KEY + MAGIC_KEY, block, 7, 0x41, 0x46, 0x41, 0x35);
  }

  lemma Word8(block: seq<byte>)
    requires Begins(block)
    ensures |block| == 64 && WordAt(block, 8) == 0x2D453931
  {
    hide WordAt, Octets, IsOctets;
    TextWord(KEY + MAGIC_KEY, block, 8, 0x2D, 0x45, 0x39, 0x31);
  }

  lemma Word9(block: seq<byte>)
    requires Begins(block)
    ensures |block| == 64 && WordAt(block, 9) == 0x342D3437
  {
    hide WordAt, Octets, IsOctets;
    TextWord(KEY + MAGIC_KEY, block, 9, 0x34, 0x2D, 0x34, 0x37);
  }

  lemma Word10(block: seq<byte>)
    requires Begins(block)
    ensures |block| == 64 && WordAt(block, 10) == 0x44412D39
  {
    hide WordAt, Octets, IsOctets;
    TextWord(KEY + MAGIC_KEY, block, 10, 0x44, 0x41, 0x2D, 0x39);
  }

  lemma Word11(block: seq<byte>)
    requires Begins(block)
    ensures |block| == 64 && WordAt(block, 11) == 0x3543412D
  {
    hide WordAt, Octets, IsOctets;
    TextWord(KEY + MAGIC_KEY, block, 11, 0x35, 0x43, 0x41, 0x2D);
  }

  lemma Word12(block: seq<byte>)
    requires Begins(block)
    ensures |block| == 64 && WordAt(block, 12) == 0x43354142
  {
    hide WordAt, Octets, IsOctets;
    TextWord(KEY + MAGIC_KEY, block, 12, 0x43, 0x35, 0x41, 0x42);
  }

  lemma Word13(block: seq<byte>)
    requires Begins(block)
    ensures |block| == 64 && WordAt(block, 13) == 0x30444338
  {
    hide WordAt, Octets, IsOctets;
    TextWord(KEY + MAGIC_KEY, block, 13, 0x30, 0x44, 0x43, 0x38);
  }

  lemma Word14(block: seq<byte>)
    requires Begins(block)
    ensures |block| == 64 && WordAt(block, 14) == 0x35423131
  {
    hide WordAt, Octets, IsOctets;
    TextWord(KEY + MAGIC_KEY, block, 14, 0x35, 0x42, 0x31, 0x31);
  }

  // The schedule and the passes of each block.

  predicate Follows(w: seq<word>, t: nat)
    requires 16 <= t < |w|
  {
    w[t] == Rotl1(w[t - 3] ^ w[t - 8] ^ w[t - 14] ^ w[t - 16])
  }

  predicate IsSchedule(w: seq<word>)
    requires |w| == 80
  {
    forall t :: 16 <= t < 80 ==> Follows(w, t)
  }
  lemma NextFour(w: seq<word>, t: nat)
    requires |w| == 80 && IsSchedule(w) && 16 <= t <= 76
    ensures w[t] == Rotl1(w[t - 3] ^ w[t - 8] ^ w[t - 14] ^ w[t - 16])
    ensures w[t + 1] == Rotl1(w[t - 2] ^ w[t - 7] ^ w[t - 13] ^ w[t - 15])
    ensures w[t + 2] == Rotl1(w[t - 1] ^ w[t - 6] ^ w[t - 12] ^ w[t - 14])
    ensures w[t + 3] == Rotl1(w[t] ^ w[t - 5] ^ w[t - 11] ^ w[t - 13])
  {
    hide Rotl1;
    assert Follows(w, t) && Follows(w, t + 1) && Follows(w, t + 2) && Follows(w, t + 3);
  }
  lemma FirstWords16(w: seq<word>)
    requires |w| == 80 && IsSchedule(w)
    requires w[0] == 0x6447686C && w[1] == 0x49484E68 && w[2] == 0x62584273 && w[3] == 0x5A534275
    requires w[4] == 0x6232356A && w[5] == 0x5A513D3D && w[6] == 0x32353845 && w[7] == 0x41464135
    requires w[8] == 0x2D453931 && w[9] == 0x342D3437 && w[10] == 0x44412D39 && w[11] == 0x3543412D
    requires w[12] == 0x43354142 && w[13] == 0x30444338 && w[14] == 0x35423131 && w[15] == 0x80000000
    ensures w[16] == 0x363CA02C && w[17] == 0x24E81236 && w[18] == 0x8856B441 && w[19] == 0x06FB3C92
    ensures w[20] == 0x6FB4BCB6 && w[21] == 0x460B16E3 && w[22] == 0x599219AE && w[23] == 0x35BF9369
    ensures w[24] == 0x3267458E && w[25] == 0xF828FD04 && w[26] == 0x753A96A7 && w[27] == 0x6336F612
    ensures w[28] == 0xC3D66383 && w[29] == 0x06EB86F9 && w[30] == 0x73B4FD42 && w[31] == 0xA503C5B8
  {
    hide IsSchedule;
    NextFour(w, 16);
    assert w[16] == 0x363CA02C && w[17] == 0x24E81236 && w[18] == 0x8856B441 && w[19] == 0x06FB3C92;
    NextFour(w, 20);
    assert w[20] == 0x6FB4BCB6 && w[21] == 0x460B16E3 && w[22] == 0x599219AE && w[23] == 0x35BF9369;
    NextFour(w, 24);
    assert w[24] == 0x3267458E && w[25] == 0xF828FD04 && w[26] == 0x753A96A7 && w[27] == 0x6336F612;
    NextFour(w, 28);
    assert w[28] == 0xC3D66383 && w[29] == 0x06EB86F9 && w[30] == 0x73B4FD42 && w[31] == 0xA503C5B8;
  }

  lemma FirstWords32(w: seq<word>)
    requires |w| == 80 && IsSchedule(w)
    requires w[16] == 0x363CA02C && w[17] == 0x24E81236 && w[18] == 0x8856B441 && w[19] == 0x06FB3C92
    requires w[20] == 0x6FB4BCB6 && w[21] == 0x460B16E3 && w[22] == 0x599219AE && w[23] == 0x35BF9369
    requires w[24] == 0x3267458E && w[25] == 0xF828FD04 && w[26] == 0x753A96A7 && w[27] == 0x6336F612
    requires w[28] == 0xC3D66383 && w[29] == 0x06EB86F9 && w[30] == 0x73B4FD42 && w[31] == 0xA503C5B8
    ensures w[32] == 0x15CDAE35 && w[33] == 0x531E5DC5 && w[34] == 0x6FB6B7D0 && w[35] == 0x6C16E4AC
    ensures w[36] == 0x4DDD36BD && w[37] == 0x35D36946 && w[38] == 0xE8AE8B9C && w[39] == 0x4A933AD0
    ensures w[40] == 0xCE8628B4 && w[41] == 0x415DBA9E && w[42] == 0x2792F049 && w[43] == 0x8E9B79E7
    ensures w[44] == 0x79C425C5 && w[45] == 0x6353B49D && w[46] == 0x00994218 && w[47] == 0x8A950ED1
  {
    hide IsSchedule;
    NextFour(w, 32);
    assert w[32] == 0x15CDAE35 && w[33] == 0x531E5DC5 && w[34] == 0x6FB6B7D0 && w[35] == 0x6C16E4AC;
    NextFour(w, 36);
    assert w[36] == 0x4DDD36BD && w[37] == 0x35D36946 && w[38] == 0xE8AE8B9C && w[39] == 0x4A933AD0;
    NextFour(w, 40);
    assert w[40] == 0xCE8628B4 && w[41] == 0x415DBA9E && w[42] == 0x2792F049 && w[43] == 0x8E9B79E7;
    NextFour(w, 44);
    assert w[44] == 0x79C425C5 && w[45] == 0x6353B49D && w[46] == 0x00994218 && w[47] == 0x8A950ED1;
  }

  lemma FirstWords48(w: seq<word>)
    requires |w| == 80 && IsSchedule(w)
    requires w[32] == 0x15CDAE35 && w[33] == 0x531E5DC5 && w[34] == 0x6FB6B7D0 && w[35] == 0x6C16E4AC
    requires w[36] == 0x4DDD36BD && w[37] == 0x35D36946 && w[38] == 0xE8AE8B9C && w[39] == 0x4A933AD0
    requires w[40] == 0xCE8628B4 && w[41] == 0x415DBA9E && w[42] == 0x2792F049 && w[43] == 0x8E9B79E7
    requires w[44] == 0x79C425C5 && w[45] == 0x6353B49D && w[46] == 0x00994218 && w[47] == 0x8A950ED1
    ensures w[48] == 0xAF5D0B99 && w[49] == 0xFD9883DE && w[50] == 0x1ED8FFEB && w[51] == 0xF007FF28
    ensures w[52] == 0x425E3674 && w[53] == 0x059631C0 && w[54] == 0xAD6C3C31 && w[55] == 0x860B71D7
    ensures w[56] == 0x87BFC548 && w[57] == 0x3E64F92D && w[58] == 0x8D0AB761 && w[59] == 0x34E1EE35
    ensures w[60] == 0x0ACF5108 && w[61] == 0xC2B479DA && w[62] == 0x6C93370A && w[63] == 0xF7935BA1
  {
    hide IsSchedule;
    NextFour(w, 48);
    assert w[48] == 0xAF5D0B99 && w[49] == 0xFD9883DE && w[50] == 0x1ED8FFEB && w[51] == 0xF007FF28;
    NextFour(w, 52);
    assert w[52] == 0x425E3674 && w[53] == 0x059631C0 && w[54] == 0xAD6C3C31 && w[55] == 0x860B71D7;
    NextFour(w, 56);
    assert w[56] == 0x87BFC548 && w[57] == 0x3E64F92D && w[58] == 0x8D0AB761 && w[59] == 0x34E1EE35;
    NextFour(w, 60);
    assert w[60] == 0x0ACF5108 && w[61] == 0xC2B479DA && w[62] == 0x6C93370A && w[63] == 0xF7935BA1;
  }

  lemma FirstWords64(w: seq<word>)
    requires |w| == 80 && IsSchedule(w)
    requires w[48] == 0xAF5D0B99 && w[49] == 0xFD9883DE && w[50] == 0x1ED8FFEB && w[51] == 0xF007FF28
    requires w[52] == 0x425E3674 && w[53] == 0x059631C0 && w[54] == 0xAD6C3C31 && w[55] == 0x860B71D7
    requires w[56] == 0x87BFC548 && w[57] == 0x3E64F92D && w[58] == 0x8D0AB761 && w[59] == 0x34E1EE35
    requires w[60] == 0x0ACF5108 && w[61] == 0xC2B479DA && w[62] == 0x6C93370A && w[63] == 0xF7935BA1
    ensures w[64] == 0xE91C91C1 && w[65] == 0xBED165A2 && w[66] == 0x4C3E4ABE && w[67] == 0x50D96238
    ensures w[68] == 0xB6587DDE && w[69] == 0x1A2EE6E6 && w[70] == 0x2D335896 && w[71] == 0xF3495D0B
    ensures w[72] == 0xF30E0A1D && w[73] == 0x32CE5459 && w[74] == 0x7165E3B8 && w[75] == 0xAB05FF94
    ensures w[76] == 0xC5949F0B && w[77] == 0xBCD84E4A && w[78] == 0x07720392 && w[79] == 0xFF3FF806
  {
    hide IsSchedule;
    NextFour(w, 64);
    assert w[64] == 0xE91C91C1 && w[65] == 0xBED165A2 && w[66] == 0x4C3E4ABE && w[67] == 0x50D96238;
    NextFour(w, 68);
    assert w[68] == 0xB6587DDE && w[69] == 0x1A2EE6E6 && w[70] == 0x2D335896 && w[71] == 0xF3495D0B;
    NextFour(w, 72);
    assert w[72] == 0xF30E0A1D && w[73] == 0x32CE5459 && w[74] == 0x7165E3B8 && w[75] == 0xAB05FF94;
    NextFour(w, 76);
    assert w[76] == 0xC5949F0B && w[77] == 0xBCD84E4A && w[78] == 0x07720392 && w[79] == 0xFF3FF806;
  }

  lemma FirstRounds0(h: Five, w: seq<word>)
    requires |w| == 80 && Rounds(h, w, 0) == Five(0x67452301, 0xEFCDAB89, 0x98BADCFE, 0x10325476, 0xC3D2E1F0)
    requires w[0] == 0x6447686C && w[1] == 0x49484E68 && w[2] == 0x62584273 && w[3] == 0x5A534275
    requires w[4] == 0x6232356A && w[5] == 0x5A513D3D && w[6] == 0x32353845 && w[7] == 0x41464135
    requires w[8] == 0x2D453931 && w[9] == 0x342D3437 && w[10] == 0x44412D39 && w[11] == 0x3543412D
    requires w[12] == 0x43354142 && w[13] == 0x30444338 && w[14] == 0x35423131 && w[15] == 0x80000000
    ensures Rounds(h, w, 16) == Five(0xA004C468, 0xE922CC9D, 0xAB86825B, 0xD86F6CAF, 0x8D33AE61)
  {
    assert Rounds(h, w, 1) == Five(0x03FC011F, 0x67452301, 0x7BF36AE2, 0x98BADCFE, 0x10325476);
    assert Rounds(h, w, 2) == Five(0x2F793F55, 0x03FC011F, 0x59D148C0, 0x7BF36AE2, 0x98BADCFE);
    assert Rounds(h, w, 3) == Five(0xBE90EE8F, 0x2F793F55, 0xC0FF0047, 0x59D148C0, 0x7BF36AE2);
    assert Rounds(h, w, 4) == Five(0x53E039AC, 0xBE90EE8F, 0x4BDE4FD5, 0xC0FF0047, 0x59D148C0);
    assert Rounds(h, w, 5) == Five(0xDD8C7C12, 0x53E039AC, 0xEFA43BA3, 0x4BDE4FD5, 0xC0FF0047);
    assert Rounds(h, w, 6) == Five(0x7320B969, 0xDD8C7C12, 0x14F80E6B, 0xEFA43BA3, 0x4BDE4FD5);
    assert Rounds(h, w, 7) == Five(0x73553E84, 0x7320B969, 0xB7631F04, 0x14F80E6B, 0xEFA43BA3);
    assert Rounds(h, w, 8) == Five(0x2E0CE601, 0x73553E84, 0x5CC82E5A, 0xB7631F04, 0x14F80E6B);
    assert Rounds(h, w, 9) == Five(0x32BEB05A, 0x2E0CE601, 0x1CD54FA1, 0x5CC82E5A, 0xB7631F04);
    assert Rounds(h, w, 10) == Five(0xFAAD2675, 0x32BEB05A, 0x4B833980, 0x1CD54FA1, 0x5CC82E5A);
    assert Rounds(h, w, 11) == Five(0x5FF4238C, 0xFAAD2675, 0x8CAFAC16, 0x4B833980, 0x1CD54FA1);
    assert Rounds(h, w, 12) == Five(0x34CEB986, 0x5FF4238C, 0x7EAB499D, 0x8CAFAC16, 0x4B833980);
    assert Rounds(h, w, 13) == Five(0x61BDB2BF, 0x34CEB986, 0x17FD08E3, 0x7EAB499D, 0x8CAFAC16);
    assert Rounds(h, w, 14) == Five(0xAE1A096E, 0x61BDB2BF, 0x8D33AE61, 0x17FD08E3, 0x7EAB499D);
    assert Rounds(h, w, 15) == Five(0xE922CC9D, 0xAE1A096E, 0xD86F6CAF, 0x8D33AE61, 0x17FD08E3);
  }

  lemma FirstRounds16(h: Five, w: seq<word>)
    requires |w| == 80 && Rounds(h, w, 16) == Five(0xA004C468, 0xE922CC9D, 0xAB86825B, 0xD86F6CAF, 0x8D33AE61)
    requires w[16] == 0x363CA02C && w[17] == 0x24E81236 && w[18] == 0x8856B441 && w[19] == 0x06FB3C92
    requires w[20] == 0x6FB4BCB6 && w[21] == 0x460B16E3 && w[22] == 0x599219AE && w[23] == 0x35BF9369
    requires w[24] == 0x3267458E && w[25] == 0xF828FD04 && w[26] == 0x753A96A7 && w[27] == 0x6336F612
    requires w[28] == 0xC3D66383 && w[29] == 0x06EB86F9 && w[30] == 0x73B4FD42 && w[31] == 0xA503C5B8
    ensures Rounds(h, w, 32) == Five(0xA6680A1F, 0xB7DABC8B, 0x4206D8F9, 0xC6AEC70D, 0x95C7DF60)
  {
    assert Rounds(h, w, 17) == Five(0xD7DAF575, 0xA004C468, 0x7A48B327, 0xAB86825B, 0xD86F6CAF);
    assert Rounds(h, w, 18) == Five(0x7EBB296B, 0xD7DAF575, 0x2801311A, 0x7A48B327, 0xAB86825B);
    assert Rounds(h, w, 19) == Five(0x8DC510B6, 0x7EBB296B, 0x75F6BD5D, 0x2801311A, 0x7A48B327);
    assert Rounds(h, w, 20) == Five(0x091AB97C, 0x8DC510B6, 0xDFAECA5A, 0x75F6BD5D, 0x2801311A);
    assert Rounds(h, w, 21) == Five(0x518470A3, 0x091AB97C, 0xA371442D, 0xDFAECA5A, 0x75F6BD5D);
    assert Rounds(h, w, 22) == Five(0xD12F0B56, 0x518470A3, 0x0246AE5F, 0xA371442D, 0xDFAECA5A);
    assert Rounds(h, w, 23) == Five(0xBEAFD554, 0xD12F0B56, 0xD4611C28, 0x0246AE5F, 0xA371442D);
    assert Rounds(h, w, 24) == Five(0x250E26EF, 0xBEAFD554, 0xB44BC2D5, 0xD4611C28, 0x0246AE5F);
    assert Rounds(h, w, 25) == Five(0x23D1C91B, 0x250E26EF, 0x2FABF555, 0xB44BC2D5, 0xD4611C28);
    assert Rounds(h, w, 26) == Five(0x748B39A0, 0x23D1C91B, 0xC94389BB, 0x2FABF555, 0xB44BC2D5);
    assert Rounds(h, w, 27) == Five(0xEF012F20, 0x748B39A0, 0xC8F47246, 0xC94389BB, 0x2FABF555);
    assert Rounds(h, w, 28) == Five(0x571F7D82, 0xEF012F20, 0x1D22CE68, 0xC8F47246, 0xC94389BB);
    assert Rounds(h, w, 29) == Five(0x1ABB1C37, 0x571F7D82, 0x3BC04BC8, 0x1D22CE68, 0xC8F47246);
    assert Rounds(h, w, 30) == Five(0x081B63E5, 0x1ABB1C37, 0x95C7DF60, 0x3BC04BC8, 0x1D22CE68);
    assert Rounds(h, w, 31) == Five(0xB7DABC8B, 0x081B63E5, 0xC6AEC70D, 0x95C7DF60, 0x3BC04BC8);
  }

  lemma FirstRounds32(h: Five, w: seq<word>)
    requires |w| == 80 && Rounds(h, w, 32) == Five(0xA6680A1F, 0xB7DABC8B, 0x4206D8F9, 0xC6AEC70D, 0x95C7DF60)
    requires w[32] == 0x15CDAE35 && w[33] == 0x531E5DC5 && w[34] == 0x6FB6B7D0 && w[35] == 0x6C16E4AC
    requires w[36] == 0x4DDD36BD && w[37] == 0x35D36946 && w[38] == 0xE8AE8B9C && w[39] == 0x4A933AD0
    requires w[40] == 0xCE8628B4 && w[41] == 0x415DBA9E && w[42] == 0x2792F049 && w[43] == 0x8E9B79E7
    requires w[44] == 0x79C425C5 && w[45] == 0x6353B49D && w[46] == 0x00994218 && w[47] == 0x8A950ED1
    ensures Rounds(h, w, 48) == Five(0xABE1748A, 0xDEE4B7A8, 0x5CBFCCD3, 0x97D7CD14, 0xDB71A8F5)
  {
    assert Rounds(h, w, 33) == Five(0x1AE360A9, 0xA6680A1F, 0xEDF6AF22, 0x4206D8F9, 0xC6AEC70D);
    assert Rounds(h, w, 34) == Five(0xEEABA35A, 0x1AE360A9, 0xE99A0287, 0xEDF6AF22, 0x4206D8F9);
    assert Rounds(h, w, 35) == Five(0x149BB4D3, 0xEEABA35A, 0x46B8D82A, 0xE99A0287, 0xEDF6AF22);
    assert Rounds(h, w, 36) == Five(0x9DE793C8, 0x149BB4D3, 0xBBAAE8D6, 0x46B8D82A, 0xE99A0287);
    assert Rounds(h, w, 37) == Five(0x4CCD2227, 0x9DE793C8, 0xC526ED34, 0xBBAAE8D6, 0x46B8D82A);
    assert Rounds(h, w, 38) == Five(0x68760824, 0x4CCD2227, 0x2779E4F2, 0xC526ED34, 0xBBAAE8D6);
    assert Rounds(h, w, 39) == Five(0xD0869081, 0x68760824, 0xD3334889, 0x2779E4F2, 0xC526ED34);
    assert Rounds(h, w, 40) == Five(0x2BA2C83E, 0xD0869081, 0x1A1D8209, 0xD3334889, 0x2779E4F2);
    assert Rounds(h, w, 41) == Five(0xCB8C52D0, 0x2BA2C83E, 0x7421A420, 0x1A1D8209, 0xD3334889);
    assert Rounds(h, w, 42) == Five(0x4F589A44, 0xCB8C52D0, 0x8AE8B20F, 0x7421A420, 0x1A1D8209);
    assert Rounds(h, w, 43) == Five(0x868829B7, 0x4F589A44, 0x32E314B4, 0x8AE8B20F, 0x7421A420);
    assert Rounds(h, w, 44) == Five(0x6DC6A3D7, 0x868829B7, 0x13D62691, 0x32E314B4, 0x8AE8B20F);
    assert Rounds(h, w, 45) == Five(0x5F5F3452, 0x6DC6A3D7, 0xE1A20A6D, 0x13D62691, 0x32E314B4);
    assert Rounds(h, w, 46) == Five(0x72FF334D, 0x5F5F3452, 0xDB71A8F5, 0xE1A20A6D, 0x13D62691);
    assert Rounds(h, w, 47) == Five(0xDEE4B7A8, 0x72FF334D, 0x97D7CD14, 0xDB71A8F5, 0xE1A20A6D);
  }

  lemma FirstRounds48(h: Five, w: seq<word>)
    requires |w| == 80 && Rounds(h, w, 48) == Five(0xABE1748A, 0xDEE4B7A8, 0x5CBFCCD3, 0x97D7CD14, 0xDB71A8F5)
    requires w[48] == 0xAF5D0B99 && w[49] == 0xFD9883DE && w[50] == 0x1ED8FFEB && w[51] == 0xF007FF28
    requires w[52] == 0x425E3674 && w[53] == 0x059631C0 && w[54] == 0xAD6C3C31 && w[55] == 0x860B71D7
    requires w[56] == 0x87BFC548 && w[57] == 0x3E64F92D && w[58] == 0x8D0AB761 && w[59] == 0x34E1EE35
    requires w[60] == 0x0ACF5108 && w[61] == 0xC2B479DA && w[62] == 0x6C93370A && w[63] == 0xF7935BA1
    ensures Rounds(h, w, 64) == Five(0x685E2FF6, 0x840054D3, 0xE43C0363, 0x3350802E, 0x921CB616)
  {
    assert Rounds(h, w, 49) == Five(0x7510D04F, 0xABE1748A, 0x37B92DEA, 0x5CBFCCD3, 0x97D7CD14);
    assert Rounds(h, w, 50) == Five(0x065F8486, 0x7510D04F, 0xAAF85D22, 0x37B92DEA, 0x5CBFCCD3);
    assert Rounds(h, w, 51) == Five(0x0E5D77C4, 0x065F8486, 0xDD443413, 0xAAF85D22, 0x37B92DEA);
    assert Rounds(h, w, 52) == Five(0x10E7F671, 0x0E5D77C4, 0x8197E121, 0xDD443413, 0xAAF85D22);
    assert Rounds(h, w, 53) == Five(0x26C69395, 0x10E7F671, 0x03975DF1, 0x8197E121, 0xDD443413);
    assert Rounds(h, w, 54) == Five(0x4C608AC4, 0x26C69395, 0x4439FD9C, 0x03975DF1, 0x8197E121);
    assert Rounds(h, w, 55) == Five(0x50C9104C, 0x4C608AC4, 0x49B1A4E5, 0x4439FD9C, 0x03975DF1);
    assert Rounds(h, w, 56) == Five(0x7E1242F2, 0x50C9104C, 0x131822B1, 0x49B1A4E5, 0x4439FD9C);
    assert Rounds(h, w, 57) == Five(0x6EF6FEF4, 0x7E1242F2, 0x14324413, 0x131822B1, 0x49B1A4E5);
    assert Rounds(h, w, 58) == Five(0x0C247C2E, 0x6EF6FEF4, 0x9F8490BC, 0x14324413, 0x131822B1);
    assert Rounds(h, w, 59) == Five(0xD284F163, 0x0C247C2E, 0x1BBDBFBD, 0x9F8490BC, 0x14324413);
    assert Rounds(h, w, 60) == Five(0x4872D85A, 0xD284F163, 0x83091F0B, 0x1BBDBFBD, 0x9F8490BC);
    assert Rounds(h, w, 61) == Five(0xCD4200B8, 0x4872D85A, 0xF4A13C58, 0x83091F0B, 0x1BBDBFBD);
    assert Rounds(h, w, 62) == Five(0x90F00D8F, 0xCD4200B8, 0x921CB616, 0xF4A13C58, 0x83091F0B);
    assert Rounds(h, w, 63) == Five(0x840054D3, 0x90F00D8F, 0x3350802E, 0x921CB616, 0xF4A13C58);
  }

  lemma FirstRounds64(h: Five, w: seq<word>)
    requires |w| == 80 && Rounds(h, w, 64) == Five(0x685E2FF6, 0x840054D3, 0xE43C0363, 0x3350802E, 0x921CB616)
    requires w[64] == 0xE91C91C1 && w[65] == 0xBED165A2 && w[66] == 0x4C3E4ABE && w[67] == 0x50D96238
    requires w[68] == 0xB6587DDE && w[69] == 0x1A2EE6E6 && w[70] == 0x2D335896 && w[71] == 0xF3495D0B
    requires w[72] == 0xF30E0A1D && w[73] == 0x32CE5459 && w[74] == 0x7165E3B8 && w[75] == 0xAB05FF94
    requires w[76] == 0xC5949F0B && w[77] == 0xBCD84E4A && w[78] == 0x07720392 && w[79] == 0xFF3FF806
    ensures Rounds(h, w, 80) == Five(0xF48A5426, 0x835995E1, 0x25C11EFB, 0x4A45C402, 0x9A73C2F2)
  {
    assert Rounds(h, w, 65) == Five(0xA4CEE018, 0x685E2FF6, 0xE1001534, 0xE43C0363, 0x3350802E);
    assert Rounds(h, w, 66) == Five(0xC3C2E45B, 0xA4CEE018, 0x9A178BFD, 0xE1001534, 0xE43C0363);
    assert Rounds(h, w, 67) == Five(0x53131A40, 0xC3C2E45B, 0x2933B806, 0x9A178BFD, 0xE1001534);
    assert Rounds(h, w, 68) == Five(0xCF8658EC, 0x53131A40, 0xF0F0B916, 0x2933B806, 0x9A178BFD);
    assert Rounds(h, w, 69) == Five(0x966E049A, 0xCF8658EC, 0x14C4C690, 0xF0F0B916, 0x2933B806);
    assert Rounds(h, w, 70) == Five(0x07381B7E, 0x966E049A, 0x33E1963B, 0x14C4C690, 0xF0F0B916);
    assert Rounds(h, w, 71) == Five(0x80D59773, 0x07381B7E, 0xA59B8126, 0x33E1963B, 0x14C4C690);
    assert Rounds(h, w, 72) == Five(0x7E65E044, 0x80D59773, 0x81CE06DF, 0xA59B8126, 0x33E1963B);
    assert Rounds(h, w, 73) == Five(0x628E7B47, 0x7E65E044, 0xE03565DC, 0x81CE06DF, 0xA59B8126);
    assert Rounds(h, w, 74) == Five(0x143A8388, 0x628E7B47, 0x1F997811, 0xE03565DC, 0x81CE06DF);
    assert Rounds(h, w, 75) == Five(0xE20983F9, 0x143A8388, 0xD8A39ED1, 0x1F997811, 0xE03565DC);
    assert Rounds(h, w, 76) == Five(0x69CF0BCA, 0xE20983F9, 0x050EA0E2, 0xD8A39ED1, 0x1F997811);
    assert Rounds(h, w, 77) == Five(0x29171009, 0x69CF0BCA, 0x788260FE, 0x050EA0E2, 0xD8A39ED1);
    assert Rounds(h, w, 78) == Five(0x97047BEC, 0x29171009, 0x9A73C2F2, 0x788260FE, 0x050EA0E2);
    assert Rounds(h, w, 79) == Five(0x835995E1, 0x97047BEC, 0x4A45C402, 0x9A73C2F2, 0x788260FE);
  }

  lemma SecondWords16(w: seq<word>)
    requires |w| == 80 && IsSchedule(w)
    requires w[0] == 0x00000000 && w[1] == 0x00000000 && w[2] == 0x00000000 && w[3] == 0x00000000
    requires w[4] == 0x00000000 && w[5] == 0x00000000 && w[6] == 0x00000000 && w[7] == 0x00000000
    requires w[8] == 0x00000000 && w[9] == 0x00000000 && w[10] == 0x00000000 && w[11] == 0x00000000
    requires w[12] == 0x00000000 && w[13] == 0x00000000 && w[14] == 0x00000000 && w[15] == 0x000001E0
    ensures w[16] == 0x00000000 && w[17] == 0x00000000 && w[18] == 0x000003C0 && w[19] == 0x00000000
    ensures w[20] == 0x00000000 && w[21] == 0x00000780 && w[22] == 0x00000000 && w[23] == 0x000003C0
    ensures w[24] == 0x00000F00 && w[25] == 0x00000000 && w[26] == 0x00000000 && w[27] == 0x00001E00
    ensures w[28] == 0x00000000 && w[29] == 0x00000CC0 && w[30] == 0x00003C00 && w[31] == 0x00000440
  {
    hide IsSchedule;
    NextFour(w, 16);
    assert w[16] == 0x00000000 && w[17] == 0x00000000 && w[18] == 0x000003C0 && w[19] == 0x00000000;
    NextFour(w, 20);
    assert w[20] == 0x00000000 && w[21] == 0x00000780 && w[22] == 0x00000000 && w[23] == 0x000003C0;
    NextFour(w, 24);
    assert w[24] == 0x00000F00 && w[25] == 0x00000000 && w[26] == 0x00000000 && w[27] == 0x00001E00;
    NextFour(w, 28);
    assert w[28] == 0x00000000 && w[29] == 0x00000CC0 && w[30] == 0x00003C00 && w[31] == 0x00000440;
  }

  lemma SecondWords32(w: seq<word>)
    requires |w| == 80 && IsSchedule(w)
    requires w[16] == 0x00000000 && w[17] == 0x00000000 && w[18] == 0x000003C0 && w[19] == 0x00000000
    requires w[20] == 0x00000000 && w[21] == 0x00000780 && w[22] == 0x00000000 && w[23] == 0x000003C0
    requires w[24] == 0x00000F00 && w[25] == 0x00000000 && w[26] == 0x00000000 && w[27] == 0x00001E00
    requires w[28] == 0x00000000 && w[29] == 0x00000CC0 && w[30] == 0x00003C00 && w[31] == 0x00000440
    ensures w[32] == 0x00000000 && w[33] == 0x00007800 && w[34] == 0x00000F00 && w[35] == 0x00003300
    ensures w[36] == 0x0000F000 && w[37] == 0x00000F00 && w[38] == 0x00000000 && w[39] == 0x0001EF00
    ensures w[40] == 0x00000000 && w[41] == 0x0000CC00 && w[42] == 0x0003C000 && w[43] == 0x00004380
    ensures w[44] == 0x00000000 && w[45] == 0x00078F00 && w[46] == 0x0000FF00 && w[47] == 0x00032680
  {
    hide IsSchedule;
    NextFour(w, 32);
    assert w[32] == 0x00000000 && w[33] == 0x00007800 && w[34] == 0x00000F00 && w[35] == 0x00003300;
    NextFour(w, 36);
    assert w[36] == 0x0000F000 && w[37] == 0x00000F00 && w[38] == 0x00000000 && w[39] == 0x0001EF00;
    NextFour(w, 40);
    assert w[40] == 0x00000000 && w[41] == 0x0000CC00 && w[42] == 0x0003C000 && w[43] == 0x00004380;
    NextFour(w, 44);
    assert w[44] == 0x00000000 && w[45] == 0x00078F00 && w[46] == 0x0000FF00 && w[47] == 0x00032680;
  }

  lemma SecondWords48(w: seq<word>)
    requires |w| == 80 && IsSchedule(w)
    requires w[32] == 0x00000000 && w[33] == 0x00007800 && w[34] == 0x00000F00 && w[35] == 0x00003300
    requires w[36] == 0x0000F000 && w[37] == 0x00000F00 && w[38] == 0x00000000 && w[39] == 0x0001EF00
    requires w[40] == 0x00000000 && w[41] == 0x0000CC00 && w[42] == 0x0003C000 && w[43] == 0x00004380
    requires w[44] == 0x00000000 && w[45] == 0x00078F00 && w[46] == 0x0000FF00 && w[47] == 0x00032680
    ensures w[48] == 0x000F0000 && w[49] == 0x0000F000 && w[50] == 0x00003300 && w[51] == 0x001EFF00
    ensures w[52] == 0x00000000 && w[53] == 0x000CB800 && w[54] == 0x003C0000 && w[55] == 0x00040B00
    ensures w[56] == 0x0000F000 && w[57] == 0x0078FF00 && w[58] == 0x000FF000 && w[59] == 0x00338700
    ensures w[60] == 0x00F00000 && w[61] == 0x000FC300 && w[62] == 0x0000F000 && w[63] == 0x01EFBB00
  {
    hide IsSchedule;
    NextFour(w, 48);
    assert w[48] == 0x000F0000 && w[49] == 0x0000F000 && w[50] == 0x00003300 && w[51] == 0x001EFF00;
    NextFour(w, 52);
    assert w[52] == 0x00000000 && w[53] == 0x000CB800 && w[54] == 0x003C0000 && w[55] == 0x00040B00;
    NextFour(w, 56);
    assert w[56] == 0x0000F000 && w[57] == 0x0078FF00 && w[58] == 0x000FF000 && w[59] == 0x00338700;
    NextFour(w, 60);
    assert w[60] == 0x00F00000 && w[61] == 0x000FC300 && w[62] == 0x0000F000 && w[63] == 0x01EFBB00;
  }

  lemma SecondWords64(w: seq<word>)
    requires |w| == 80 && IsSchedule(w)
    requires w[48] == 0x000F0000 && w[49] == 0x0000F000 && w[50] == 0x00003300 && w[51] == 0x001EFF00
    requires w[52] == 0x00000000 && w[53] == 0x000CB800 && w[54] == 0x003C0000 && w[55] == 0x00040B00
    requires w[56] == 0x0000F000 && w[57] == 0x0078FF00 && w[58] == 0x000FF000 && w[59] == 0x00338700
    requires w[60] == 0x00F00000 && w[61] == 0x000FC300 && w[62] == 0x0000F000 && w[63] == 0x01EFBB00
    ensures w[64] == 0x00000000 && w[65] == 0x00CC0000 && w[66] == 0x03C0F000 && w[67] == 0x00438000
    ensures w[68] == 0x00000000 && w[69] == 0x078F0000 && w[70] == 0x00FF0000 && w[71] == 0x03269E00
    ensures w[72] == 0x0F000000 && w[73] == 0x00F0F000 && w[74] == 0x00333C00 && w[75] == 0x1EFF8800
    ensures w[76] == 0x00000000 && w[77] == 0x0CB88800 && w[78] == 0x3C00F000 && w[79] == 0x040A4A00
  {
    hide IsSchedule;
    NextFour(w, 64);
    assert w[64] == 0x00000000 && w[65] == 0x00CC0000 && w[66] == 0x03C0F000 && w[67] == 0x00438000;
    NextFour(w, 68);
    assert w[68] == 0x00000000 && w[69] == 0x078F0000 && w[70] == 0x00FF0000 && w[71] == 0x03269E00;
    NextFour(w, 72);
    assert w[72] == 0x0F000000 && w[73] == 0x00F0F000 && w[74] == 0x00333C00 && w[75] == 0x1EFF8800;
    NextFour(w, 76);
    assert w[76] == 0x00000000 && w[77] == 0x0CB88800 && w[78] == 0x3C00F000 && w[79] == 0x040A4A00;
  }

  lemma SecondRounds0(h: Five, w: seq<word>)
    requires |w| == 80 && Rounds(h, w, 0) == Five(0x5BCF7727, 0x7327416A, 0xBE7BFBF9, 0x5A781878, 0x5E46A4E2)
    requires w[0] == 0x00000000 && w[1] == 0x00000000 && w[2] == 0x00000000 && w[3] == 0x00000000
    requires w[4] == 0x00000000 && w[5] == 0x00000000 && w[6] == 0x00000000 && w[7] == 0x00000000
    requires w[8] == 0x00000000 && w[9] == 0x00000000 && w[10] == 0x00000000 && w[11] == 0x00000000
    requires w[12] == 0x00000000 && w[13] == 0x00000000 && w[14] == 0x00000000 && w[15] == 0x000001E0
    ensures Rounds(h, w, 16) == Five(0x986DF268, 0x990B7BE7, 0xAB50FCE7, 0x195DB4B7, 0x4941806B)
  {
    assert Rounds(h, w, 1) == Five(0x6D335CDE, 0x5BCF7727, 0x9CC9D05A, 0xBE7BFBF9, 0x5A781878);
    assert Rounds(h, w, 2) == Five(0x186006B8, 0x6D335CDE, 0xD6F3DDC9, 0x9CC9D05A, 0xBE7BFBF9);
    assert Rounds(h, w, 3) == Five(0xF9FB295D, 0x186006B8, 0x9B4CD737, 0xD6F3DDC9, 0x9CC9D05A);
    assert Rounds(h, w, 4) == Five(0x15855523, 0xF9FB295D, 0x061801AE, 0x9B4CD737, 0xD6F3DDC9);
    assert Rounds(h, w, 5) == Five(0xE43DD2F2, 0x15855523, 0x7E7ECA57, 0x061801AE, 0x9B4CD737);
    assert Rounds(h, w, 6) == Five(0x93A5EFBB, 0xE43DD2F2, 0xC5615548, 0x7E7ECA57, 0x061801AE);
    assert Rounds(h, w, 7) == Five(0xB3BBCAFE, 0x93A5EFBB, 0xB90F74BC, 0xC5615548, 0x7E7ECA57);
    assert Rounds(h, w, 8) == Five(0x25C018BE, 0xB3BBCAFE, 0xE4E97BEE, 0xB90F74BC, 0xC5615548);
    assert Rounds(h, w, 9) == Five(0x80946593, 0x25C018BE, 0xACEEF2BF, 0xE4E97BEE, 0xB90F74BC);
    assert Rounds(h, w, 10) == Five(0x0B0814C3, 0x80946593, 0x8970062F, 0xACEEF2BF, 0xE4E97BEE);
    assert Rounds(h, w, 11) == Five(0x4CE92417, 0x0B0814C3, 0xE0251964, 0x8970062F, 0xACEEF2BF);
    assert Rounds(h, w, 12) == Five(0x250601AD, 0x4CE92417, 0xC2C20530, 0xE0251964, 0x8970062F);
    assert Rounds(h, w, 13) == Five(0x6576D2DC, 0x250601AD, 0xD33A4905, 0xC2C20530, 0xE0251964);
    assert Rounds(h, w, 14) == Five(0xAD43F39E, 0x6576D2DC, 0x4941806B, 0xD33A4905, 0xC2C20530);
    assert Rounds(h, w, 15) == Five(0x990B7BE7, 0xAD43F39E, 0x195DB4B7, 0x4941806B, 0xD33A4905);
  }

  lemma SecondRounds16(h: Five, w: seq<word>)
    requires |w| == 80 && Rounds(h, w, 16) == Five(0x986DF268, 0x990B7BE7, 0xAB50FCE7, 0x195DB4B7, 0x4941806B)
    requires w[16] == 0x00000000 && w[17] == 0x00000000 && w[18] == 0x000003C0 && w[19] == 0x00000000
    requires w[20] == 0x00000000 && w[21] == 0x00000780 && w[22] == 0x00000000 && w[23] == 0x000003C0
    requires w[24] == 0x00000F00 && w[25] == 0x00000000 && w[26] == 0x00000000 && w[27] == 0x00001E00
    requires w[28] == 0x00000000 && w[29] == 0x00000CC0 && w[30] == 0x00003C00 && w[31] == 0x00000440
    ensures Rounds(h, w, 32) == Five(0x3CF6EB58, 0xF4DDD7B7, 0xC90FB815, 0xBD5F2D4F, 0xE4C9F7DB)
  {
    assert Rounds(h, w, 17) == Five(0x3AD7440E, 0x986DF268, 0xE642DEF9, 0xAB50FCE7, 0x195DB4B7);
    assert Rounds(h, w, 18) == Five(0x72198F06, 0x3AD7440E, 0x261B7C9A, 0xE642DEF9, 0xAB50FCE7);
    assert Rounds(h, w, 19) == Five(0x2F193A09, 0x72198F06, 0x8EB5D103, 0x261B7C9A, 0xE642DEF9);
    assert Rounds(h, w, 20) == Five(0x2A008B51, 0x2F193A09, 0x9C8663C1, 0x8EB5D103, 0x261B7C9A);
    assert Rounds(h, w, 21) == Five(0x12315B2B, 0x2A008B51, 0x4BC64E82, 0x9C8663C1, 0x8EB5D103);
    assert Rounds(h, w, 22) == Five(0x40FBCF98, 0x12315B2B, 0x4A8022D4, 0x4BC64E82, 0x9C8663C1);
    assert Rounds(h, w, 23) == Five(0x3E5179E7, 0x40FBCF98, 0xC48C56CA, 0x4A8022D4, 0x4BC64E82);
    assert Rounds(h, w, 24) == Five(0x53C73650, 0x3E5179E7, 0x103EF3E6, 0xC48C56CA, 0x4A8022D4);
    assert Rounds(h, w, 25) == Five(0x1D24C44A, 0x53C73650, 0xCF945E79, 0x103EF3E6, 0xC48C56CA);
    assert Rounds(h, w, 26) == Five(0x646C677D, 0x1D24C44A, 0x14F1CD94, 0xCF945E79, 0x103EF3E6);
    assert Rounds(h, w, 27) == Five(0xD2E726DA, 0x646C677D, 0x87493112, 0x14F1CD94, 0xCF945E79);
    assert Rounds(h, w, 28) == Five(0x9327DF6F, 0xD2E726DA, 0x591B19DF, 0x87493112, 0x14F1CD94);
    assert Rounds(h, w, 29) == Five(0xF57CB53E, 0x9327DF6F, 0xB4B9C9B6, 0x591B19DF, 0x87493112);
    assert Rounds(h, w, 30) == Five(0x243EE057, 0xF57CB53E, 0xE4C9F7DB, 0xB4B9C9B6, 0x591B19DF);
    assert Rounds(h, w, 31) == Five(0xF4DDD7B7, 0x243EE057, 0xBD5F2D4F, 0xE4C9F7DB, 0xB4B9C9B6);
  }

  lemma SecondRounds32(h: Five, w: seq<word>)
    requires |w| == 80 && Rounds(h, w, 32) == Five(0x3CF6EB58, 0xF4DDD7B7, 0xC90FB815, 0xBD5F2D4F, 0xE4C9F7DB)
    requires w[32] == 0x00000000 && w[33] == 0x00007800 && w[34] == 0x00000F00 && w[35] == 0x00003300
    requires w[36] == 0x0000F000 && w[37] == 0x00000F00 && w[38] == 0x00000000 && w[39] == 0x0001EF00
    requires w[40] == 0x00000000 && w[41] == 0x0000CC00 && w[42] == 0x0003C000 && w[43] == 0x00004380
    requires w[44] == 0x00000000 && w[45] == 0x00078F00 && w[46] == 0x0000FF00 && w[47] == 0x00032680
    ensures Rounds(h, w, 48) == Five(0xA3EF857E, 0xC8CDA3DA, 0xCEF6480E, 0xFF1EF4D7, 0xC7A4D2B3)
  {
    assert Rounds(h, w, 33) == Five(0x730E9170, 0x3CF6EB58, 0xFD3775ED, 0xC90FB815, 0xBD5F2D4F);
    assert Rounds(h, w, 34) == Five(0x96D9E59E, 0x730E9170, 0x0F3DBAD6, 0xFD3775ED, 0xC90FB815);
    assert Rounds(h, w, 35) == Five(0x942AC4D3, 0x96D9E59E, 0x1CC3A45C, 0x0F3DBAD6, 0xFD3775ED);
    assert Rounds(h, w, 36) == Five(0x76922A14, 0x942AC4D3, 0xA5B67967, 0x1CC3A45C, 0x0F3DBAD6);
    assert Rounds(h, w, 37) == Five(0x7DBCF2ED, 0x76922A14, 0xE50AB134, 0xA5B67967, 0x1CC3A45C);
    assert Rounds(h, w, 38) == Five(0x796ADEF3, 0x7DBCF2ED, 0x1DA48A85, 0xE50AB134, 0xA5B67967);
    assert Rounds(h, w, 39) == Five(0xC6FF0CD3, 0x796ADEF3, 0x5F6F3CBB, 0x1DA48A85, 0xE50AB134);
    assert Rounds(h, w, 40) == Five(0x6F698F1A, 0xC6FF0CD3, 0xDE5AB7BC, 0x5F6F3CBB, 0x1DA48A85);
    assert Rounds(h, w, 41) == Five(0x78716769, 0x6F698F1A, 0xF1BFC334, 0xDE5AB7BC, 0x5F6F3CBB);
    assert Rounds(h, w, 42) == Five(0xFC343A02, 0x78716769, 0x9BDA63C6, 0xF1BFC334, 0xDE5AB7BC);
    assert Rounds(h, w, 43) == Five(0xEDFCD85B, 0xFC343A02, 0x5E1C59DA, 0x9BDA63C6, 0xF1BFC334);
    assert Rounds(h, w, 44) == Five(0x1E934ACF, 0xEDFCD85B, 0xBF0D0E80, 0x5E1C59DA, 0x9BDA63C6);
    assert Rounds(h, w, 45) == Five(0xFC7BD35F, 0x1E934ACF, 0xFB7F3616, 0xBF0D0E80, 0x5E1C59DA);
    assert Rounds(h, w, 46) == Five(0x3BD9203B, 0xFC7BD35F, 0xC7A4D2B3, 0xFB7F3616, 0xBF0D0E80);
    assert Rounds(h, w, 47) == Five(0xC8CDA3DA, 0x3BD9203B, 0xFF1EF4D7, 0xC7A4D2B3, 0xFB7F3616);
  }

  lemma SecondRounds48(h: Five, w: seq<word>)
    requires |w| == 80 && Rounds(h, w, 48) == Five(0xA3EF857E, 0xC8CDA3DA, 0xCEF6480E, 0xFF1EF4D7, 0xC7A4D2B3)
    requires w[48] == 0x000F0000 && w[49] == 0x0000F000 && w[50] == 0x00003300 && w[51] == 0x001EFF00
    requires w[52] == 0x00000000 && w[53] == 0x000CB800 && w[54] == 0x003C0000 && w[55] == 0x00040B00
    requires w[56] == 0x0000F000 && w[57] == 0x0078FF00 && w[58] == 0x000FF000 && w[59] == 0x00338700
    requires w[60] == 0x00F00000 && w[61] == 0x000FC300 && w[62] == 0x0000F000 && w[63] == 0x01EFBB00
    ensures Rounds(h, w, 64) == Five(0xA5937450, 0xD5EF1ED7, 0xC444CBE3, 0xDDD22788, 0x558467C6)
  {
    assert Rounds(h, w, 49) == Five(0xA39F2041, 0xA3EF857E, 0xB23368F6, 0xCEF6480E, 0xFF1EF4D7);
    assert Rounds(h, w, 50) == Five(0xA516F265, 0xA39F2041, 0xA8FBE15F, 0xB23368F6, 0xCEF6480E);
    assert Rounds(h, w, 51) == Five(0xA3ABE4F5, 0xA516F265, 0x68E7C810, 0xA8FBE15F, 0xB23368F6);
    assert Rounds(h, w, 52) == Five(0x5FE2A3DB, 0xA3ABE4F5, 0x6945BC99, 0x68E7C810, 0xA8FBE15F);
    assert Rounds(h, w, 53) == Five(0x9E540637, 0x5FE2A3DB, 0x68EAF93D, 0x6945BC99, 0x68E7C810);
    assert Rounds(h, w, 54) == Five(0x2C73BD78, 0x9E540637, 0xD7F8A8F6, 0x68EAF93D, 0x6945BC99);
    assert Rounds(h, w, 55) == Five(0x660DD0B1, 0x2C73BD78, 0xE795018D, 0xD7F8A8F6, 0x68EAF93D);
    assert Rounds(h, w, 56) == Five(0xA1B68141, 0x660DD0B1, 0x0B1CEF5E, 0xE795018D, 0xD7F8A8F6);
    assert Rounds(h, w, 57) == Five(0x05033FA3, 0xA1B68141, 0x5983742C, 0x0B1CEF5E, 0xE795018D);
    assert Rounds(h, w, 58) == Five(0x21289715, 0x05033FA3, 0x686DA050, 0x5983742C, 0x0B1CEF5E);
    assert Rounds(h, w, 59) == Five(0x085EB2FE, 0x21289715, 0xC140CFE8, 0x686DA050, 0x5983742C);
    assert Rounds(h, w, 60) == Five(0x56119F19, 0x085EB2FE, 0x484A25C5, 0xC140CFE8, 0x686DA050);
    assert Rounds(h, w, 61) == Five(0x77489E23, 0x56119F19, 0x8217ACBF, 0x484A25C5, 0xC140CFE8);
    assert Rounds(h, w, 62) == Five(0x11132F8F, 0x77489E23, 0x558467C6, 0x8217ACBF, 0x484A25C5);
    assert Rounds(h, w, 63) == Five(0xD5EF1ED7, 0x11132F8F, 0xDDD22788, 0x558467C6, 0x8217ACBF);
  }

  lemma SecondRounds64(h: Five, w: seq<word>)
    requires |w| == 80 && Rounds(h, w, 64) == Five(0xA5937450, 0xD5EF1ED7, 0xC444CBE3, 0xDDD22788, 0x558467C6)
    requires w[64] == 0x00000000 && w[65] == 0x00CC0000 && w[66] == 0x03C0F000 && w[67] == 0x00438000
    requires w[68] == 0x00000000 && w[69] == 0x078F0000 && w[70] == 0x00FF0000 && w[71] == 0x03269E00
    requires w[72] == 0x0F000000 && w[73] == 0x00F0F000 && w[74] == 0x00333C00 && w[75] == 0x1EFF8800
    requires w[76] == 0x00000000 && w[77] == 0x0CB88800 && w[78] == 0x3C00F000 && w[79] == 0x040A4A00
    ensures Rounds(h, w, 80) == Five(0x57AAD805, 0x4D3B0DAC, 0xD27A4A0D, 0x74C040CD, 0x54782008)
  {
    assert Rounds(h, w, 65) == Five(0x9ECFA66C, 0xA5937450, 0xF57BC7B5, 0xC444CBE3, 0xDDD22788);
    assert Rounds(h, w, 66) == Five(0x17A22EF7, 0x9ECFA66C, 0x2964DD14, 0xF57BC7B5, 0xC444CBE3);
    assert Rounds(h, w, 67) == Five(0xC97F1968, 0x17A22EF7, 0x27B3E99B, 0x2964DD14, 0xF57BC7B5);
    assert Rounds(h, w, 68) == Five(0x097A511C, 0xC97F1968, 0xC5E88BBD, 0x27B3E99B, 0x2964DD14);
    assert Rounds(h, w, 69) == Five(0x4E363DB9, 0x097A511C, 0x325FC65A, 0xC5E88BBD, 0x27B3E99B);
    assert Rounds(h, w, 70) == Five(0xBF3A7F95, 0x4E363DB9, 0x025E9447, 0x325FC65A, 0xC5E88BBD);
    assert Rounds(h, w, 71) == Five(0xF6D1AFEE, 0xBF3A7F95, 0x538D8F6E, 0x025E9447, 0x325FC65A);
    assert Rounds(h, w, 72) == Five(0xC90888CA, 0xF6D1AFEE, 0x6FCE9FE5, 0x538D8F6E, 0x025E9447);
    assert Rounds(h, w, 73) == Five(0xC7652EDB, 0xC90888CA, 0xBDB46BFB, 0x6FCE9FE5, 0x538D8F6E);
    assert Rounds(h, w, 74) == Five(0x26F99990, 0xC7652EDB, 0xB2422232, 0xBDB46BFB, 0x6FCE9FE5);
    assert Rounds(h, w, 75) == Five(0xE22B36D1, 0x26F99990, 0xF1D94BB6, 0xB2422232, 0xBDB46BFB);
    assert Rounds(h, w, 76) == Five(0x51E08021, 0xE22B36D1, 0x09BE6664, 0xF1D94BB6, 0xB2422232);
    assert Rounds(h, w, 77) == Five(0xD3010335, 0x51E08021, 0x788ACDB4, 0x09BE6664, 0xF1D94BB6);
    assert Rounds(h, w, 78) == Five(0x49E92837, 0xD3010335, 0x54782008, 0x788ACDB4, 0x09BE6664);
    assert Rounds(h, w, 79) == Five(0x4D3B0DAC, 0x49E92837, 0x74C040CD, 0x54782008, 0x788ACDB4);
  }

  /** The last word of the first block holds the one bit. */
  lemma FirstBlock(block: seq<byte>)
    requires |block| == 64 && IsOctets(KEY + MAGIC_KEY)
    requires block == Octets(KEY + MAGIC_KEY) + [0x80] + Zeros(3)
    ensures Rounds(INITIAL, Schedule(block, 80), 80) ==
      Five(0xF48A5426, 0x835995E1, 0x25C11EFB, 0x4A45C402, 0x9A73C2F2)
  {
    hide Round, Rounds, WordAt, IsSchedule, Begins, Octets, IsOctets, Schedule, Follows;
    LastWord(block);
    BlockBegins(block);
    Word0(block);
    Word1(block);
    Word2(block);
    Word3(block);
    Word4(block);
    Word5(block);
    Word6(block);
    Word7(block);
    Word8(block);
    Word9(block);
    Word10(block);
    Word11(block);
    Word12(block);
    Word13(block);
    Word14(block);
    ScheduleIs(block, 80);
    var w := Schedule(block, 80);
    WordsStart(block, w);
    FirstWords16(w);
    FirstWords32(w);
    FirstWords48(w);
    FirstWords64(w);
    assert Rounds(INITIAL, w, 0) == INITIAL by {
      NoRounds(INITIAL, w);
    }
    FirstRounds0(INITIAL, w);
    FirstRounds16(INITIAL, w);
    FirstRounds32(INITIAL, w);
    FirstRounds48(INITIAL, w);
    FirstRounds64(INITIAL, w);
  }

  lemma SecondBlock(block: seq<byte>, h: Five)
    requires |block| == 64 && block == Zeros(56) + LengthField(60)
    requires h == Five(0x5BCF7727, 0x7327416A, 0xBE7BFBF9, 0x5A781878, 0x5E46A4E2)
    ensures Rounds(h, Schedule(block, 80), 80) ==
      Five(0x57AAD805, 0x4D3B0DAC, 0xD27A4A0D, 0x74C040CD, 0x54782008)
  {
    hide Round, Rounds, WordAt, IsSchedule, LengthField;
    LengthWords(block);
    ScheduleIs(block, 80);
    var w := Schedule(block, 80);
    WordsStart(block, w);
    SecondWords16(w);
    SecondWords32(w);
    SecondWords48(w);
    SecondWords64(w);
    assert Rounds(h, w, 0) == h by {
      NoRounds(h, w);
    }
    SecondRounds0(h, w);
    SecondRounds16(h, w);
    SecondRounds32(h, w);
    SecondRounds48(h, w);
    SecondRounds64(h, w);
  }

  lemma BlockBegins(block: seq<byte>)
    requires |block| == 64 && IsOctets(KEY + MAGIC_KEY)
    requires block == Octets(KEY + MAGIC_KEY) + [0x80] + Zeros(3)
    ensures Begins(block)
  {
    hide Octets, IsOctets;
  }

  lemma NoRounds(h: Five, w: seq<word>)
    ensures Rounds(h, w, 0) == h
  {
  }

  lemma LastWord(block: seq<byte>)
    requires |block| == 64 && block[60..] == [0x80, 0, 0, 0]
    ensures WordAt(block, 15) == 0x80000000
  {
    assert block[60] == block[60..][0] && block[61] == block[60..][1];
    assert block[62] == block[60..][2] && block[63] == block[60..][3];
  }

  lemma LengthWords(block: seq<byte>)
    requires |block| == 64 && block == Zeros(56) + LengthField(60)
    ensures forall i :: 0 <= i < 15 ==> WordAt(block, i) == 0
    ensures WordAt(block, 15) == 0x000001E0
  {
    hide LengthField;
    LengthBytes();
    forall i | 0 <= i < 15
      ensures WordAt(block, i) == 0
    {
      assert block[4 * i] == 0 && block[4 * i + 1] == 0 && block[4 * i + 2] == 0 && block[4 * i + 3] == 0;
    }
    assert block[60] == 0 && block[61] == 0 && block[62] == 1 && block[63] == 0xE0;
  }

  lemma LengthBytes()
    ensures LengthField(60) == [0, 0, 0, 0, 0, 0, 1, 0xE0]
  {
    hide LengthField;
    LengthFieldOfWords(60, 0, 480);
    SmallWord(0, 0, 0);
    SmallWord(480, 1, 0xE0);
  }

  lemma SmallWord(n: nat, c: byte, d: byte)
    requires n == c as nat * 0x100 + d as nat
    ensures BigEndian32(n) == [0, 0, c, d]
  {
    ByteOfUnique(c);
    ByteOfUnique(d);
    SmallDigits(n, c as nat, d as nat);
  }

  lemma SmallDigits(n: nat, c: nat, d: nat)
    requires c < 0x100 && d < 0x100 && n == c * 0x100 + d
    ensures BigEndian32(n) == [0, 0, ByteOf(c), ByteOf(d)]
  {
    assert ByteOf(0) == 0;
    assert n / 0x1_0000 == 0 && n % 0x1_0000 == n && n / 0x100 == c && n % 0x100 == d;
  }

  lemma {:induction false} ScheduleIs(block: seq<byte>, n: nat)
    requires |block| == 64 && n <= 80
    ensures var w := Schedule(block, n);
      && (forall t :: 16 <= t < n ==> Follows(w, t))
      && (forall t :: 0 <= t < n && t < 16 ==> w[t] == WordAt(block, t))
  {
    hide WordAt, Follows;
    if n > 0 {
      ScheduleIs(block, n - 1);
      var v, w := Schedule(block, n - 1), Schedule(block, n);
      OneMoreWord(block, n);
      forall t | 16 <= t < n - 1
        ensures Follows(w, t)
      {
        StillFollows(v, w[n - 1], t);
      }
    }
  }

  lemma OneMoreWord(block: seq<byte>, n: nat)
    requires |block| == 64 && 0 < n <= 80
    ensures var v, w := Schedule(block, n - 1), Schedule(block, n);
      w == v + [w[n - 1]] && if n - 1 < 16 then w[n - 1] == WordAt(block, n - 1) else Follows(w, n - 1)
  {
    hide WordAt, Rotl1;
  }

  lemma StillFollows(v: seq<word>, x: word, t: nat)
    requires 16 <= t < |v| && Follows(v, t)
    ensures Follows(v + [x], t)
  {
    hide Rotl1;
  }

  lemma WordsStart(block: seq<byte>, w: seq<word>)
    requires |block| == 64 && |w| == 80
    requires forall t :: 16 <= t < 80 ==> Follows(w, t)
    requires forall t :: 0 <= t < 80 && t < 16 ==> w[t] == WordAt(block, t)
    ensures IsSchedule(w)
    ensures w[0] == WordAt(block, 0) && w[1] == WordAt(block, 1)
    ensures w[2] == WordAt(block, 2) && w[3] == WordAt(block, 3)
    ensures w[4] == WordAt(block, 4) && w[5] == WordAt(block, 5)
    ensures w[6] == WordAt(block, 6) && w[7] == WordAt(block, 7)
    ensures w[8] == WordAt(block, 8) && w[9] == WordAt(block, 9)
    ensures w[10] == WordAt(block, 10) && w[11] == WordAt(block, 11)
    ensures w[12] == WordAt(block, 12) && w[13] == WordAt(block, 13)
    ensures w[14] == WordAt(block, 14) && w[15] == WordAt(block, 15)
  {
    hide WordAt, Follows;
  }

  lemma MessageOctets()
    ensures IsOctets(KEY + MAGIC_KEY) && IsKey(KEY)
  {
    MagicKeyIsOctets();
    OctetsConcat(KEY, MAGIC_KEY);
  }

  lemma MessageIsWhole()
    ensures UpToNul(KEY + MAGIC_KEY) == KEY + MAGIC_KEY
  {
    UpToNulConcat(KEY + MAGIC_KEY, "");
  }

  /** The padded message is two blocks. */
  lemma ExampleBlocks(m: seq<byte>)
    requires |m| == 60
    ensures Cut(Padded(m)) == [m + [0x80] + Zeros(3), Zeros(56) + LengthField(60)]
  {
    hide LengthField, Cut, Zeros;
    PaddedInTwoBlocks([], m, LengthField(60));
    NothingBefore(m);
  }

  lemma DigestOfExample()
    ensures IsKey(KEY) && AcceptDigest(KEY) == Five(0xB37A4F2C, 0xC0624F16, 0x90F64606, 0xCF385945, 0xB2BEC4EA)
  {
    hide Round, Rounds, WordAt, IsSchedule, Octets, LengthField, Schedule, IsOctets, Concat, Cut, Padded, Chain, Zeros,
         UpToNul;
    MessageOctets();
    MessageIsWhole();
    MessageLength();
    var m := Octets(KEY + MAGIC_KEY);
    ExampleBlocks(m);
    var first, last: Block := m + [0x80] + Zeros(3), Zeros(56) + LengthField(60);
    ChainOfTwo(first, last);
    FirstBlock(first);
    SecondBlock(last, Compress(INITIAL, first));
  }

  lemma MessageLength()
    ensures |KEY + MAGIC_KEY| == 60
  {
  }

  lemma NothingBefore(m: seq<byte>)
    ensures Concat([]) + m == m
  {
  }

  lemma ChainOfTwo(first: Block, last: Block)
    ensures Chain(Compress, INITIAL, [first, last]) == Compress(Compress(INITIAL, first), last)
  {
    ChainNext(Compress, INITIAL, [], first);
    ChainNext(Compress, INITIAL, [first], last);
    assert [] + [first] == [first] && [first] + [last] == [first, last];
  }

  // The digest in base 64.

  lemma WordDigits(n: nat, a: nat, b: nat, c: nat, d: nat)
    requires a < 0x100 && b < 0x100 && c < 0x100 && d < 0x100
    requires n == a * 0x100_0000 + b * 0x1_0000 + c * 0x100 + d
    ensures BigEndian(n, 4) == [ByteOf(a), ByteOf(b), ByteOf(c), ByteOf(d)]
  {
    hide ByteOf, BigEndian, BigEndian16;
    assert n == (a * 0x100 + b) * 0x1_0000 + (c * 0x100 + d);
    BigEndianOfWord(n);
    TwoDigits(a * 0x100 + b, a, b);
    TwoDigits(c * 0x100 + d, c, d);
  }

  lemma TwoDigits(n: nat, a: nat, b: nat)
    requires a < 0x100 && b < 0x100 && n == a * 0x100 + b
    ensures BigEndian16(n) == [ByteOf(a), ByteOf(b)]
  {
    hide ByteOf;
  }

  lemma DigestWord(n: nat, a: byte, b: byte, c: byte, d: byte)
    requires n == a as nat * 0x100_0000 + b as nat * 0x1_0000 + c as nat * 0x100 + d as nat
    ensures BigEndian(n, 4) == [a, b, c, d]
  {
    WordDigits(n, a as nat, b as nat, c as nat, d as nat);
    ByteOfUnique(a);
    ByteOfUnique(b);
    ByteOfUnique(c);
    ByteOfUnique(d);
  }

  lemma DigestBytesOfExample()
    ensures DigestBytes(Five(0xB37A4F2C, 0xC0624F16, 0x90F64606, 0xCF385945, 0xB2BEC4EA)) == [
      0xB3, 0x7A, 0x4F, 0x2C, 0xC0, 0x62, 0x4F, 0x16, 0x90, 0xF6,
      0x46, 0x06, 0xCF, 0x38, 0x59, 0x45, 0xB2, 0xBE, 0xC4, 0xEA]
  {
    hide BigEndian, ByteOf;
    DigestWord(0xB37A4F2C, 0xB3, 0x7A, 0x4F, 0x2C);
    DigestWord(0xC0624F16, 0xC0, 0x62, 0x4F, 0x16);
    DigestWord(0x90F64606, 0x90, 0xF6, 0x46, 0x06);
    DigestWord(0xCF385945, 0xCF, 0x38, 0x59, 0x45);
    DigestWord(0xB2BEC4EA, 0xB2, 0xBE, 0xC4, 0xEA);
  }

  lemma Quads()
    ensures Base64Text.Quad(Base64Text.Group(0xB3, 0x7A, 0x4F)) == "s3pP"
    ensures Base64Text.Quad(Base64Text.Group(0x2C, 0xC0, 0x62)) == "LMBi"
    ensures Base64Text.Quad(Base64Text.Group(0x4F, 0x16, 0x90)) == "TxaQ"
    ensures Base64Text.Quad(Base64Text.Group(0xF6, 0x46, 0x06)) == "9kYG"
    ensures Base64Text.Quad(Base64Text.Group(0xCF, 0x38, 0x59)) == "zzhZ"
    ensures Base64Text.Quad(Base64Text.Group(0x45, 0xB2, 0xBE)) == "RbK+"
    ensures Base64Text.Quad(Base64Text.Group(0xC4, 0xEA, 0)) == "xOoA"
  {
  }

  lemma EncodedStep(a: byte, b: byte, c: byte, rest: seq<byte>)
    ensures Base64Text.Encoded([a, b, c] + rest) ==
      Base64Text.Quad(Base64Text.Group(a, b, c)) + Base64Text.Encoded(rest)
  {
    hide Base64Text.Quad, Base64Text.Group;
    assert ([a, b, c] + rest)[3..] == rest;
  }

  lemma EncodedTail(a: byte, b: byte)
    ensures Base64Text.Encoded([a, b]) == Base64Text.Quad(Base64Text.Group(a, b, 0))[..3] + "="
  {
    hide Base64Text.Quad, Base64Text.Group;
  }

  lemma EncodedExample(data: seq<byte>)
    requires data == [0xB3, 0x7A, 0x4F] + ([0x2C, 0xC0, 0x62] + ([0x4F, 0x16, 0x90] + ([0xF6, 0x46, 0x06] +
      ([0xCF, 0x38, 0x59] + ([0x45, 0xB2, 0xBE] + [0xC4, 0xEA])))))
    ensures Base64Text.Encoded(data) == "s3pP" + ("LMBi" + ("TxaQ" + ("9kYG" + ("zzhZ" + ("RbK+" + "xOo=")))))
  {
    hide Base64Text.Encoded, Base64Text.Quad, Base64Text.Group;
    Quads();
    EncodedTail(0xC4, 0xEA);
    var r6: seq<byte> := [0xC4, 0xEA];
    EncodedStep(0x45, 0xB2, 0xBE, r6);
    var r5: seq<byte> := [0x45, 0xB2, 0xBE] + r6;
    EncodedStep(0xCF, 0x38, 0x59, r5);
    var r4: seq<byte> := [0xCF, 0x38, 0x59] + r5;
    EncodedStep(0xF6, 0x46, 0x06, r4);
    var r3: seq<byte> := [0xF6, 0x46, 0x06] + r4;
    EncodedStep(0x4F, 0x16, 0x90, r3);
    var r2: seq<byte> := [0x4F, 0x16, 0x90] + r3;
    EncodedStep(0x2C, 0xC0, 0x62, r2);
    var r1: seq<byte> := [0x2C, 0xC0, 0x62] + r2;
    EncodedStep(0xB3, 0x7A, 0x4F, r1);
  }

  lemma Regrouped()
    ensures [0xB3, 0x7A, 0x4F] + ([0x2C, 0xC0, 0x62] + ([0x4F, 0x16, 0x90] + ([0xF6, 0x46, 0x06] +
      ([0xCF, 0x38, 0x59] + ([0x45, 0xB2, 0xBE] + [0xC4, 0xEA]))))) == [
      0xB3, 0x7A, 0x4F, 0x2C, 0xC0, 0x62, 0x4F, 0x16, 0x90, 0xF6,
      0x46, 0x06, 0xCF, 0x38, 0x59, 0x45, 0xB2, 0xBE, 0xC4, 0xEA]
  {
  }

  lemma AcceptPieces()
    ensures ACCEPT == "s3pP" + ("LMBi" + ("TxaQ" + ("9kYG" + ("zzhZ" + ("RbK+" + "xOo=")))))
  {
  }

  /** Server and client compute the accept key that RFC 6455 gives for its example. */
  lemma {:induction false} ExampleAccepted()
    ensures IsKey(KEY) && Accept(KEY) == ACCEPT
  {
    hide AcceptDigest, DigestBytes, Base64Text.Encoded, IsKey;
    DigestOfExample();
    DigestBytesOfExample();
    Regrouped();
    EncodedExample(DigestBytes(AcceptDigest(KEY)));
    AcceptPieces();
  }
}
