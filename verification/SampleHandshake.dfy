// The sample handshake in section 1.3 of RFC 6455, whose message takes two
// blocks: from the key to the accept key, every step written out.

module SampleHandshake {
  import opened Bytes
  import opened Sha1
  import opened KnownAnswers
  import Base64
  import Handshake

  /** dGhlIHNhbXBsZSBub25jZQ==, in ASCII. */
  const KEY: seq<byte> :=
    [0x64, 0x47, 0x68, 0x6C, 0x49, 0x48, 0x4E, 0x68, 0x62, 0x58, 0x42, 0x73] +
    [0x5A, 0x53, 0x42, 0x75, 0x62, 0x32, 0x35, 0x6A, 0x5A, 0x51, 0x3D, 0x3D]

  function KeyBlock(): (b: seq<byte>)
    ensures |b| == 64
  {
    KEY + Handshake.GUID + [0x80, 0, 0, 0]
  }

  lemma KeyLetters(b: seq<byte>)
    requires |b| == 24 && b == KEY
    ensures b[0] == 0x64 && b[1] == 0x47 && b[2] == 0x68 && b[3] == 0x6C
    ensures b[4] == 0x49 && b[5] == 0x48 && b[6] == 0x4E && b[7] == 0x68
    ensures b[8] == 0x62 && b[9] == 0x58 && b[10] == 0x42 && b[11] == 0x73
    ensures b[12] == 0x5A && b[13] == 0x53 && b[14] == 0x42 && b[15] == 0x75
    ensures b[16] == 0x62 && b[17] == 0x32 && b[18] == 0x35 && b[19] == 0x6A
    ensures b[20] == 0x5A && b[21] == 0x51 && b[22] == 0x3D && b[23] == 0x3D
  {
  }

  lemma GuidLetters(b: seq<byte>)
    requires |b| == 36 && b == Handshake.GUID
    ensures b[0] == 0x32 && b[1] == 0x35 && b[2] == 0x38 && b[3] == 0x45
    ensures b[4] == 0x41 && b[5] == 0x46 && b[6] == 0x41 && b[7] == 0x35
    ensures b[8] == 0x2D && b[9] == 0x45 && b[10] == 0x39 && b[11] == 0x31
    ensures b[12] == 0x34 && b[13] == 0x2D && b[14] == 0x34 && b[15] == 0x37
    ensures b[16] == 0x44 && b[17] == 0x41 && b[18] == 0x2D && b[19] == 0x39
    ensures b[20] == 0x35 && b[21] == 0x43 && b[22] == 0x41 && b[23] == 0x2D
    ensures b[24] == 0x43 && b[25] == 0x35 && b[26] == 0x41 && b[27] == 0x42
    ensures b[28] == 0x30 && b[29] == 0x44 && b[30] == 0x43 && b[31] == 0x38
    ensures b[32] == 0x35 && b[33] == 0x42 && b[34] == 0x31 && b[35] == 0x31
  {
  }

  lemma Concatenated(b: seq<byte>, k: seq<byte>, g: seq<byte>)
    requires |k| == 24 && |g| == 36 && k == KEY && g == Handshake.GUID && b == k + g + [0x80, 0, 0, 0]
    ensures b[0] == 0x64 && b[1] == 0x47 && b[2] == 0x68 && b[3] == 0x6C
    ensures b[4] == 0x49 && b[5] == 0x48 && b[6] == 0x4E && b[7] == 0x68
    ensures b[8] == 0x62 && b[9] == 0x58 && b[10] == 0x42 && b[11] == 0x73
    ensures b[12] == 0x5A && b[13] == 0x53 && b[14] == 0x42 && b[15] == 0x75
    ensures b[16] == 0x62 && b[17] == 0x32 && b[18] == 0x35 && b[19] == 0x6A
    ensures b[20] == 0x5A && b[21] == 0x51 && b[22] == 0x3D && b[23] == 0x3D
    ensures b[24] == 0x32 && b[25] == 0x35 && b[26] == 0x38 && b[27] == 0x45
    ensures b[28] == 0x41 && b[29] == 0x46 && b[30] == 0x41 && b[31] == 0x35
    ensures b[32] == 0x2D && b[33] == 0x45 && b[34] == 0x39 && b[35] == 0x31
    ensures b[36] == 0x34 && b[37] == 0x2D && b[38] == 0x34 && b[39] == 0x37
    ensures b[40] == 0x44 && b[41] == 0x41 && b[42] == 0x2D && b[43] == 0x39
    ensures b[44] == 0x35 && b[45] == 0x43 && b[46] == 0x41 && b[47] == 0x2D
    ensures b[48] == 0x43 && b[49] == 0x35 && b[50] == 0x41 && b[51] == 0x42
    ensures b[52] == 0x30 && b[53] == 0x44 && b[54] == 0x43 && b[55] == 0x38
    ensures b[56] == 0x35 && b[57] == 0x42 && b[58] == 0x31 && b[59] == 0x31
  {
    KeyLetters(k);
    GuidLetters(g);
  }

  lemma KeyWords0(b: seq<byte>)
    requires b == KeyBlock()
    ensures Schedule(b, 0) == 0x6447686C && Schedule(b, 1) == 0x49484E68 && Schedule(b, 2) == 0x62584273
    ensures Schedule(b, 3) == 0x5A534275 && Schedule(b, 4) == 0x6232356A && Schedule(b, 5) == 0x5A513D3D
    ensures Schedule(b, 6) == 0x32353845 && Schedule(b, 7) == 0x41464135 && Schedule(b, 8) == 0x2D453931
    ensures Schedule(b, 9) == 0x342D3437 && Schedule(b, 10) == 0x44412D39 && Schedule(b, 11) == 0x3543412D
    ensures Schedule(b, 12) == 0x43354142 && Schedule(b, 13) == 0x30444338 && Schedule(b, 14) == 0x35423131
    ensures Schedule(b, 15) == 0x80000000
  {
    Concatenated(b, KEY, Handshake.GUID);
    assert b[60] == 0x80 && b[61] == b[62] == b[63] == 0;
    hide KeyBlock;
    ScheduleIs(b, 0); ScheduleIs(b, 1); ScheduleIs(b, 2); ScheduleIs(b, 3);
    ScheduleIs(b, 4); ScheduleIs(b, 5); ScheduleIs(b, 6); ScheduleIs(b, 7);
    ScheduleIs(b, 8); ScheduleIs(b, 9); ScheduleIs(b, 10); ScheduleIs(b, 11);
    ScheduleIs(b, 12); ScheduleIs(b, 13); ScheduleIs(b, 14); ScheduleIs(b, 15);
  }

  lemma KeyWords1(b: seq<byte>)
    requires b == KeyBlock()
    ensures Schedule(b, 16) == 0x363CA02C && Schedule(b, 17) == 0x24E81236 && Schedule(b, 18) == 0x8856B441
    ensures Schedule(b, 19) == 0x06FB3C92 && Schedule(b, 20) == 0x6FB4BCB6 && Schedule(b, 21) == 0x460B16E3
    ensures Schedule(b, 22) == 0x599219AE && Schedule(b, 23) == 0x35BF9369 && Schedule(b, 24) == 0x3267458E
    ensures Schedule(b, 25) == 0xF828FD04 && Schedule(b, 26) == 0x753A96A7 && Schedule(b, 27) == 0x6336F612
    ensures Schedule(b, 28) == 0xC3D66383 && Schedule(b, 29) == 0x06EB86F9 && Schedule(b, 30) == 0x73B4FD42
    ensures Schedule(b, 31) == 0xA503C5B8
  {
    KeyWords0(b);
    hide Schedule, KeyBlock;
    ScheduleIs(b, 16); ScheduleIs(b, 17); ScheduleIs(b, 18); ScheduleIs(b, 19);
    ScheduleIs(b, 20); ScheduleIs(b, 21); ScheduleIs(b, 22); ScheduleIs(b, 23);
    ScheduleIs(b, 24); ScheduleIs(b, 25); ScheduleIs(b, 26); ScheduleIs(b, 27);
    ScheduleIs(b, 28); ScheduleIs(b, 29); ScheduleIs(b, 30); ScheduleIs(b, 31);
  }

  lemma KeyWords2(b: seq<byte>)
    requires b == KeyBlock()
    ensures Schedule(b, 32) == 0x15CDAE35 && Schedule(b, 33) == 0x531E5DC5 && Schedule(b, 34) == 0x6FB6B7D0
    ensures Schedule(b, 35) == 0x6C16E4AC && Schedule(b, 36) == 0x4DDD36BD && Schedule(b, 37) == 0x35D36946
    ensures Schedule(b, 38) == 0xE8AE8B9C && Schedule(b, 39) == 0x4A933AD0 && Schedule(b, 40) == 0xCE8628B4
    ensures Schedule(b, 41) == 0x415DBA9E && Schedule(b, 42) == 0x2792F049 && Schedule(b, 43) == 0x8E9B79E7
    ensures Schedule(b, 44) == 0x79C425C5 && Schedule(b, 45) == 0x6353B49D && Schedule(b, 46) == 0x00994218
    ensures Schedule(b, 47) == 0x8A950ED1
  {
    KeyWords1(b);
    hide Schedule, KeyBlock;
    ScheduleIs(b, 32); ScheduleIs(b, 33); ScheduleIs(b, 34); ScheduleIs(b, 35);
    ScheduleIs(b, 36); ScheduleIs(b, 37); ScheduleIs(b, 38); ScheduleIs(b, 39);
    ScheduleIs(b, 40); ScheduleIs(b, 41); ScheduleIs(b, 42); ScheduleIs(b, 43);
    ScheduleIs(b, 44); ScheduleIs(b, 45); ScheduleIs(b, 46); ScheduleIs(b, 47);
  }

  lemma KeyWords3(b: seq<byte>)
    requires b == KeyBlock()
    ensures Schedule(b, 48) == 0xAF5D0B99 && Schedule(b, 49) == 0xFD9883DE && Schedule(b, 50) == 0x1ED8FFEB
    ensures Schedule(b, 51) == 0xF007FF28 && Schedule(b, 52) == 0x425E3674 && Schedule(b, 53) == 0x059631C0
    ensures Schedule(b, 54) == 0xAD6C3C31 && Schedule(b, 55) == 0x860B71D7 && Schedule(b, 56) == 0x87BFC548
    ensures Schedule(b, 57) == 0x3E64F92D && Schedule(b, 58) == 0x8D0AB761 && Schedule(b, 59) == 0x34E1EE35
    ensures Schedule(b, 60) == 0x0ACF5108 && Schedule(b, 61) == 0xC2B479DA && Schedule(b, 62) == 0x6C93370A
    ensures Schedule(b, 63) == 0xF7935BA1
  {
    KeyWords2(b);
    hide Schedule, KeyBlock;
    ScheduleIs(b, 48); ScheduleIs(b, 49); ScheduleIs(b, 50); ScheduleIs(b, 51);
    ScheduleIs(b, 52); ScheduleIs(b, 53); ScheduleIs(b, 54); ScheduleIs(b, 55);
    ScheduleIs(b, 56); ScheduleIs(b, 57); ScheduleIs(b, 58); ScheduleIs(b, 59);
    ScheduleIs(b, 60); ScheduleIs(b, 61); ScheduleIs(b, 62); ScheduleIs(b, 63);
  }

  lemma KeyWords4(b: seq<byte>)
    requires b == KeyBlock()
    ensures Schedule(b, 64) == 0xE91C91C1 && Schedule(b, 65) == 0xBED165A2 && Schedule(b, 66) == 0x4C3E4ABE
    ensures Schedule(b, 67) == 0x50D96238 && Schedule(b, 68) == 0xB6587DDE && Schedule(b, 69) == 0x1A2EE6E6
    ensures Schedule(b, 70) == 0x2D335896 && Schedule(b, 71) == 0xF3495D0B && Schedule(b, 72) == 0xF30E0A1D
    ensures Schedule(b, 73) == 0x32CE5459 && Schedule(b, 74) == 0x7165E3B8 && Schedule(b, 75) == 0xAB05FF94
    ensures Schedule(b, 76) == 0xC5949F0B && Schedule(b, 77) == 0xBCD84E4A && Schedule(b, 78) == 0x07720392
    ensures Schedule(b, 79) == 0xFF3FF806
  {
    KeyWords3(b);
    hide Schedule, KeyBlock;
    ScheduleIs(b, 64); ScheduleIs(b, 65); ScheduleIs(b, 66); ScheduleIs(b, 67);
    ScheduleIs(b, 68); ScheduleIs(b, 69); ScheduleIs(b, 70); ScheduleIs(b, 71);
    ScheduleIs(b, 72); ScheduleIs(b, 73); ScheduleIs(b, 74); ScheduleIs(b, 75);
    ScheduleIs(b, 76); ScheduleIs(b, 77); ScheduleIs(b, 78); ScheduleIs(b, 79);
  }

  lemma KeyRounds0(b: seq<byte>)
    requires |b| == 64 && Rounds(b, INITIAL, 0) == Sum(0x67452301, 0xEFCDAB89, 0x98BADCFE, 0x10325476, 0xC3D2E1F0)
    requires Schedule(b, 0) == 0x6447686C && Schedule(b, 1) == 0x49484E68 && Schedule(b, 2) == 0x62584273
    requires Schedule(b, 3) == 0x5A534275 && Schedule(b, 4) == 0x6232356A && Schedule(b, 5) == 0x5A513D3D
    requires Schedule(b, 6) == 0x32353845 && Schedule(b, 7) == 0x41464135 && Schedule(b, 8) == 0x2D453931
    requires Schedule(b, 9) == 0x342D3437
    ensures Rounds(b, INITIAL, 10) == Sum(0xFAAD2675, 0x32BEB05A, 0x4B833980, 0x1CD54FA1, 0x5CC82E5A)
  {
    hide Schedule, Rounds;
    Round(b, INITIAL, 0, 0x6447686C, 0x67452301, 0xEFCDAB89, 0x98BADCFE, 0x10325476, 0xC3D2E1F0, 0x03FC011F, 0x7BF36AE2);
    Round(b, INITIAL, 1, 0x49484E68, 0x03FC011F, 0x67452301, 0x7BF36AE2, 0x98BADCFE, 0x10325476, 0x2F793F55, 0x59D148C0);
    Round(b, INITIAL, 2, 0x62584273, 0x2F793F55, 0x03FC011F, 0x59D148C0, 0x7BF36AE2, 0x98BADCFE, 0xBE90EE8F, 0xC0FF0047);
    Round(b, INITIAL, 3, 0x5A534275, 0xBE90EE8F, 0x2F793F55, 0xC0FF0047, 0x59D148C0, 0x7BF36AE2, 0x53E039AC, 0x4BDE4FD5);
    Round(b, INITIAL, 4, 0x6232356A, 0x53E039AC, 0xBE90EE8F, 0x4BDE4FD5, 0xC0FF0047, 0x59D148C0, 0xDD8C7C12, 0xEFA43BA3);
    Round(b, INITIAL, 5, 0x5A513D3D, 0xDD8C7C12, 0x53E039AC, 0xEFA43BA3, 0x4BDE4FD5, 0xC0FF0047, 0x7320B969, 0x14F80E6B);
    Round(b, INITIAL, 6, 0x32353845, 0x7320B969, 0xDD8C7C12, 0x14F80E6B, 0xEFA43BA3, 0x4BDE4FD5, 0x73553E84, 0xB7631F04);
    Round(b, INITIAL, 7, 0x41464135, 0x73553E84, 0x7320B969, 0xB7631F04, 0x14F80E6B, 0xEFA43BA3, 0x2E0CE601, 0x5CC82E5A);
    Round(b, INITIAL, 8, 0x2D453931, 0x2E0CE601, 0x73553E84, 0x5CC82E5A, 0xB7631F04, 0x14F80E6B, 0x32BEB05A, 0x1CD54FA1);
    Round(b, INITIAL, 9, 0x342D3437, 0x32BEB05A, 0x2E0CE601, 0x1CD54FA1, 0x5CC82E5A, 0xB7631F04, 0xFAAD2675, 0x4B833980);
  }

  lemma KeyRounds1(b: seq<byte>)
    requires |b| == 64 && Rounds(b, INITIAL, 10) == Sum(0xFAAD2675, 0x32BEB05A, 0x4B833980, 0x1CD54FA1, 0x5CC82E5A)
    requires Schedule(b, 10) == 0x44412D39 && Schedule(b, 11) == 0x3543412D && Schedule(b, 12) == 0x43354142
    requires Schedule(b, 13) == 0x30444338 && Schedule(b, 14) == 0x35423131 && Schedule(b, 15) == 0x80000000
    requires Schedule(b, 16) == 0x363CA02C && Schedule(b, 17) == 0x24E81236 && Schedule(b, 18) == 0x8856B441
    requires Schedule(b, 19) == 0x06FB3C92
    ensures Rounds(b, INITIAL, 20) == Sum(0x091AB97C, 0x8DC510B6, 0xDFAECA5A, 0x75F6BD5D, 0x2801311A)
  {
    hide Schedule, Rounds;
    Round(b, INITIAL, 10, 0x44412D39, 0xFAAD2675, 0x32BEB05A, 0x4B833980, 0x1CD54FA1, 0x5CC82E5A, 0x5FF4238C, 0x8CAFAC16);
    Round(b, INITIAL, 11, 0x3543412D, 0x5FF4238C, 0xFAAD2675, 0x8CAFAC16, 0x4B833980, 0x1CD54FA1, 0x34CEB986, 0x7EAB499D);
    Round(b, INITIAL, 12, 0x43354142, 0x34CEB986, 0x5FF4238C, 0x7EAB499D, 0x8CAFAC16, 0x4B833980, 0x61BDB2BF, 0x17FD08E3);
    Round(b, INITIAL, 13, 0x30444338, 0x61BDB2BF, 0x34CEB986, 0x17FD08E3, 0x7EAB499D, 0x8CAFAC16, 0xAE1A096E, 0x8D33AE61);
    Round(b, INITIAL, 14, 0x35423131, 0xAE1A096E, 0x61BDB2BF, 0x8D33AE61, 0x17FD08E3, 0x7EAB499D, 0xE922CC9D, 0xD86F6CAF);
    Round(b, INITIAL, 15, 0x80000000, 0xE922CC9D, 0xAE1A096E, 0xD86F6CAF, 0x8D33AE61, 0x17FD08E3, 0xA004C468, 0xAB86825B);
    Round(b, INITIAL, 16, 0x363CA02C, 0xA004C468, 0xE922CC9D, 0xAB86825B, 0xD86F6CAF, 0x8D33AE61, 0xD7DAF575, 0x7A48B327);
    Round(b, INITIAL, 17, 0x24E81236, 0xD7DAF575, 0xA004C468, 0x7A48B327, 0xAB86825B, 0xD86F6CAF, 0x7EBB296B, 0x2801311A);
    Round(b, INITIAL, 18, 0x8856B441, 0x7EBB296B, 0xD7DAF575, 0x2801311A, 0x7A48B327, 0xAB86825B, 0x8DC510B6, 0x75F6BD5D);
    Round(b, INITIAL, 19, 0x06FB3C92, 0x8DC510B6, 0x7EBB296B, 0x75F6BD5D, 0x2801311A, 0x7A48B327, 0x091AB97C, 0xDFAECA5A);
  }

  lemma KeyRounds2(b: seq<byte>)
    requires |b| == 64 && Rounds(b, INITIAL, 20) == Sum(0x091AB97C, 0x8DC510B6, 0xDFAECA5A, 0x75F6BD5D, 0x2801311A)
    requires Schedule(b, 20) == 0x6FB4BCB6 && Schedule(b, 21) == 0x460B16E3 && Schedule(b, 22) == 0x599219AE
    requires Schedule(b, 23) == 0x35BF9369 && Schedule(b, 24) == 0x3267458E && Schedule(b, 25) == 0xF828FD04
    requires Schedule(b, 26) == 0x753A96A7 && Schedule(b, 27) == 0x6336F612 && Schedule(b, 28) == 0xC3D66383
    requires Schedule(b, 29) == 0x06EB86F9
    ensures Rounds(b, INITIAL, 30) == Sum(0x081B63E5, 0x1ABB1C37, 0x95C7DF60, 0x3BC04BC8, 0x1D22CE68)
  {
    hide Schedule, Rounds;
    Round(b, INITIAL, 20, 0x6FB4BCB6, 0x091AB97C, 0x8DC510B6, 0xDFAECA5A, 0x75F6BD5D, 0x2801311A, 0x518470A3, 0xA371442D);
    Round(b, INITIAL, 21, 0x460B16E3, 0x518470A3, 0x091AB97C, 0xA371442D, 0xDFAECA5A, 0x75F6BD5D, 0xD12F0B56, 0x0246AE5F);
    Round(b, INITIAL, 22, 0x599219AE, 0xD12F0B56, 0x518470A3, 0x0246AE5F, 0xA371442D, 0xDFAECA5A, 0xBEAFD554, 0xD4611C28);
    Round(b, INITIAL, 23, 0x35BF9369, 0xBEAFD554, 0xD12F0B56, 0xD4611C28, 0x0246AE5F, 0xA371442D, 0x250E26EF, 0xB44BC2D5);
    Round(b, INITIAL, 24, 0x3267458E, 0x250E26EF, 0xBEAFD554, 0xB44BC2D5, 0xD4611C28, 0x0246AE5F, 0x23D1C91B, 0x2FABF555);
    Round(b, INITIAL, 25, 0xF828FD04, 0x23D1C91B, 0x250E26EF, 0x2FABF555, 0xB44BC2D5, 0xD4611C28, 0x748B39A0, 0xC94389BB);
    Round(b, INITIAL, 26, 0x753A96A7, 0x748B39A0, 0x23D1C91B, 0xC94389BB, 0x2FABF555, 0xB44BC2D5, 0xEF012F20, 0xC8F47246);
    Round(b, INITIAL, 27, 0x6336F612, 0xEF012F20, 0x748B39A0, 0xC8F47246, 0xC94389BB, 0x2FABF555, 0x571F7D82, 0x1D22CE68);
    Round(b, INITIAL, 28, 0xC3D66383, 0x571F7D82, 0xEF012F20, 0x1D22CE68, 0xC8F47246, 0xC94389BB, 0x1ABB1C37, 0x3BC04BC8);
    Round(b, INITIAL, 29, 0x06EB86F9, 0x1ABB1C37, 0x571F7D82, 0x3BC04BC8, 0x1D22CE68, 0xC8F47246, 0x081B63E5, 0x95C7DF60);
  }

  lemma KeyRounds3(b: seq<byte>)
    requires |b| == 64 && Rounds(b, INITIAL, 30) == Sum(0x081B63E5, 0x1ABB1C37, 0x95C7DF60, 0x3BC04BC8, 0x1D22CE68)
    requires Schedule(b, 30) == 0x73B4FD42 && Schedule(b, 31) == 0xA503C5B8 && Schedule(b, 32) == 0x15CDAE35
    requires Schedule(b, 33) == 0x531E5DC5 && Schedule(b, 34) == 0x6FB6B7D0 && Schedule(b, 35) == 0x6C16E4AC
    requires Schedule(b, 36) == 0x4DDD36BD && Schedule(b, 37) == 0x35D36946 && Schedule(b, 38) == 0xE8AE8B9C
    requires Schedule(b, 39) == 0x4A933AD0
    ensures Rounds(b, INITIAL, 40) == Sum(0x2BA2C83E, 0xD0869081, 0x1A1D8209, 0xD3334889, 0x2779E4F2)
  {
    hide Schedule, Rounds;
    Round(b, INITIAL, 30, 0x73B4FD42, 0x081B63E5, 0x1ABB1C37, 0x95C7DF60, 0x3BC04BC8, 0x1D22CE68, 0xB7DABC8B, 0xC6AEC70D);
    Round(b, INITIAL, 31, 0xA503C5B8, 0xB7DABC8B, 0x081B63E5, 0xC6AEC70D, 0x95C7DF60, 0x3BC04BC8, 0xA6680A1F, 0x4206D8F9);
    Round(b, INITIAL, 32, 0x15CDAE35, 0xA6680A1F, 0xB7DABC8B, 0x4206D8F9, 0xC6AEC70D, 0x95C7DF60, 0x1AE360A9, 0xEDF6AF22);
    Round(b, INITIAL, 33, 0x531E5DC5, 0x1AE360A9, 0xA6680A1F, 0xEDF6AF22, 0x4206D8F9, 0xC6AEC70D, 0xEEABA35A, 0xE99A0287);
    Round(b, INITIAL, 34, 0x6FB6B7D0, 0xEEABA35A, 0x1AE360A9, 0xE99A0287, 0xEDF6AF22, 0x4206D8F9, 0x149BB4D3, 0x46B8D82A);
    Round(b, INITIAL, 35, 0x6C16E4AC, 0x149BB4D3, 0xEEABA35A, 0x46B8D82A, 0xE99A0287, 0xEDF6AF22, 0x9DE793C8, 0xBBAAE8D6);
    Round(b, INITIAL, 36, 0x4DDD36BD, 0x9DE793C8, 0x149BB4D3, 0xBBAAE8D6, 0x46B8D82A, 0xE99A0287, 0x4CCD2227, 0xC526ED34);
    Round(b, INITIAL, 37, 0x35D36946, 0x4CCD2227, 0x9DE793C8, 0xC526ED34, 0xBBAAE8D6, 0x46B8D82A, 0x68760824, 0x2779E4F2);
    Round(b, INITIAL, 38, 0xE8AE8B9C, 0x68760824, 0x4CCD2227, 0x2779E4F2, 0xC526ED34, 0xBBAAE8D6, 0xD0869081, 0xD3334889);
    Round(b, INITIAL, 39, 0x4A933AD0, 0xD0869081, 0x68760824, 0xD3334889, 0x2779E4F2, 0xC526ED34, 0x2BA2C83E, 0x1A1D8209);
  }

  lemma KeyRounds4(b: seq<byte>)
    requires |b| == 64 && Rounds(b, INITIAL, 40) == Sum(0x2BA2C83E, 0xD0869081, 0x1A1D8209, 0xD3334889, 0x2779E4F2)
    requires Schedule(b, 40) == 0xCE8628B4 && Schedule(b, 41) == 0x415DBA9E && Schedule(b, 42) == 0x2792F049
    requires Schedule(b, 43) == 0x8E9B79E7 && Schedule(b, 44) == 0x79C425C5 && Schedule(b, 45) == 0x6353B49D
    requires Schedule(b, 46) == 0x00994218 && Schedule(b, 47) == 0x8A950ED1 && Schedule(b, 48) == 0xAF5D0B99
    requires Schedule(b, 49) == 0xFD9883DE
    ensures Rounds(b, INITIAL, 50) == Sum(0x065F8486, 0x7510D04F, 0xAAF85D22, 0x37B92DEA, 0x5CBFCCD3)
  {
    hide Schedule, Rounds;
    Round(b, INITIAL, 40, 0xCE8628B4, 0x2BA2C83E, 0xD0869081, 0x1A1D8209, 0xD3334889, 0x2779E4F2, 0xCB8C52D0, 0x7421A420);
    Round(b, INITIAL, 41, 0x415DBA9E, 0xCB8C52D0, 0x2BA2C83E, 0x7421A420, 0x1A1D8209, 0xD3334889, 0x4F589A44, 0x8AE8B20F);
    Round(b, INITIAL, 42, 0x2792F049, 0x4F589A44, 0xCB8C52D0, 0x8AE8B20F, 0x7421A420, 0x1A1D8209, 0x868829B7, 0x32E314B4);
    Round(b, INITIAL, 43, 0x8E9B79E7, 0x868829B7, 0x4F589A44, 0x32E314B4, 0x8AE8B20F, 0x7421A420, 0x6DC6A3D7, 0x13D62691);
    Round(b, INITIAL, 44, 0x79C425C5, 0x6DC6A3D7, 0x868829B7, 0x13D62691, 0x32E314B4, 0x8AE8B20F, 0x5F5F3452, 0xE1A20A6D);
    Round(b, INITIAL, 45, 0x6353B49D, 0x5F5F3452, 0x6DC6A3D7, 0xE1A20A6D, 0x13D62691, 0x32E314B4, 0x72FF334D, 0xDB71A8F5);
    Round(b, INITIAL, 46, 0x00994218, 0x72FF334D, 0x5F5F3452, 0xDB71A8F5, 0xE1A20A6D, 0x13D62691, 0xDEE4B7A8, 0x97D7CD14);
    Round(b, INITIAL, 47, 0x8A950ED1, 0xDEE4B7A8, 0x72FF334D, 0x97D7CD14, 0xDB71A8F5, 0xE1A20A6D, 0xABE1748A, 0x5CBFCCD3);
    Round(b, INITIAL, 48, 0xAF5D0B99, 0xABE1748A, 0xDEE4B7A8, 0x5CBFCCD3, 0x97D7CD14, 0xDB71A8F5, 0x7510D04F, 0x37B92DEA);
    Round(b, INITIAL, 49, 0xFD9883DE, 0x7510D04F, 0xABE1748A, 0x37B92DEA, 0x5CBFCCD3, 0x97D7CD14, 0x065F8486, 0xAAF85D22);
  }

  lemma KeyRounds5(b: seq<byte>)
    requires |b| == 64 && Rounds(b, INITIAL, 50) == Sum(0x065F8486, 0x7510D04F, 0xAAF85D22, 0x37B92DEA, 0x5CBFCCD3)
    requires Schedule(b, 50) == 0x1ED8FFEB && Schedule(b, 51) == 0xF007FF28 && Schedule(b, 52) == 0x425E3674
    requires Schedule(b, 53) == 0x059631C0 && Schedule(b, 54) == 0xAD6C3C31 && Schedule(b, 55) == 0x860B71D7
    requires Schedule(b, 56) == 0x87BFC548 && Schedule(b, 57) == 0x3E64F92D && Schedule(b, 58) == 0x8D0AB761
    requires Schedule(b, 59) == 0x34E1EE35
    ensures Rounds(b, INITIAL, 60) == Sum(0x4872D85A, 0xD284F163, 0x83091F0B, 0x1BBDBFBD, 0x9F8490BC)
  {
    hide Schedule, Rounds;
    Round(b, INITIAL, 50, 0x1ED8FFEB, 0x065F8486, 0x7510D04F, 0xAAF85D22, 0x37B92DEA, 0x5CBFCCD3, 0x0E5D77C4, 0xDD443413);
    Round(b, INITIAL, 51, 0xF007FF28, 0x0E5D77C4, 0x065F8486, 0xDD443413, 0xAAF85D22, 0x37B92DEA, 0x10E7F671, 0x8197E121);
    Round(b, INITIAL, 52, 0x425E3674, 0x10E7F671, 0x0E5D77C4, 0x8197E121, 0xDD443413, 0xAAF85D22, 0x26C69395, 0x03975DF1);
    Round(b, INITIAL, 53, 0x059631C0, 0x26C69395, 0x10E7F671, 0x03975DF1, 0x8197E121, 0xDD443413, 0x4C608AC4, 0x4439FD9C);
    Round(b, INITIAL, 54, 0xAD6C3C31, 0x4C608AC4, 0x26C69395, 0x4439FD9C, 0x03975DF1, 0x8197E121, 0x50C9104C, 0x49B1A4E5);
    Round(b, INITIAL, 55, 0x860B71D7, 0x50C9104C, 0x4C608AC4, 0x49B1A4E5, 0x4439FD9C, 0x03975DF1, 0x7E1242F2, 0x131822B1);
    Round(b, INITIAL, 56, 0x87BFC548, 0x7E1242F2, 0x50C9104C, 0x131822B1, 0x49B1A4E5, 0x4439FD9C, 0x6EF6FEF4, 0x14324413);
    Round(b, INITIAL, 57, 0x3E64F92D, 0x6EF6FEF4, 0x7E1242F2, 0x14324413, 0x131822B1, 0x49B1A4E5, 0x0C247C2E, 0x9F8490BC);
    Round(b, INITIAL, 58, 0x8D0AB761, 0x0C247C2E, 0x6EF6FEF4, 0x9F8490BC, 0x14324413, 0x131822B1, 0xD284F163, 0x1BBDBFBD);
    Round(b, INITIAL, 59, 0x34E1EE35, 0xD284F163, 0x0C247C2E, 0x1BBDBFBD, 0x9F8490BC, 0x14324413, 0x4872D85A, 0x83091F0B);
  }

  lemma KeyRounds6(b: seq<byte>)
    requires |b| == 64 && Rounds(b, INITIAL, 60) == Sum(0x4872D85A, 0xD284F163, 0x83091F0B, 0x1BBDBFBD, 0x9F8490BC)
    requires Schedule(b, 60) == 0x0ACF5108 && Schedule(b, 61) == 0xC2B479DA && Schedule(b, 62) == 0x6C93370A
    requires Schedule(b, 63) == 0xF7935BA1 && Schedule(b, 64) == 0xE91C91C1 && Schedule(b, 65) == 0xBED165A2
    requires Schedule(b, 66) == 0x4C3E4ABE && Schedule(b, 67) == 0x50D96238 && Schedule(b, 68) == 0xB6587DDE
    requires Schedule(b, 69) == 0x1A2EE6E6
    ensures Rounds(b, INITIAL, 70) == Sum(0x07381B7E, 0x966E049A, 0x33E1963B, 0x14C4C690, 0xF0F0B916)
  {
    hide Schedule, Rounds;
    Round(b, INITIAL, 60, 0x0ACF5108, 0x4872D85A, 0xD284F163, 0x83091F0B, 0x1BBDBFBD, 0x9F8490BC, 0xCD4200B8, 0xF4A13C58);
    Round(b, INITIAL, 61, 0xC2B479DA, 0xCD4200B8, 0x4872D85A, 0xF4A13C58, 0x83091F0B, 0x1BBDBFBD, 0x90F00D8F, 0x921CB616);
    Round(b, INITIAL, 62, 0x6C93370A, 0x90F00D8F, 0xCD4200B8, 0x921CB616, 0xF4A13C58, 0x83091F0B, 0x840054D3, 0x3350802E);
    Round(b, INITIAL, 63, 0xF7935BA1, 0x840054D3, 0x90F00D8F, 0x3350802E, 0x921CB616, 0xF4A13C58, 0x685E2FF6, 0xE43C0363);
    Round(b, INITIAL, 64, 0xE91C91C1, 0x685E2FF6, 0x840054D3, 0xE43C0363, 0x3350802E, 0x921CB616, 0xA4CEE018, 0xE1001534);
    Round(b, INITIAL, 65, 0xBED165A2, 0xA4CEE018, 0x685E2FF6, 0xE1001534, 0xE43C0363, 0x3350802E, 0xC3C2E45B, 0x9A178BFD);
    Round(b, INITIAL, 66, 0x4C3E4ABE, 0xC3C2E45B, 0xA4CEE018, 0x9A178BFD, 0xE1001534, 0xE43C0363, 0x53131A40, 0x2933B806);
    Round(b, INITIAL, 67, 0x50D96238, 0x53131A40, 0xC3C2E45B, 0x2933B806, 0x9A178BFD, 0xE1001534, 0xCF8658EC, 0xF0F0B916);
    Round(b, INITIAL, 68, 0xB6587DDE, 0xCF8658EC, 0x53131A40, 0xF0F0B916, 0x2933B806, 0x9A178BFD, 0x966E049A, 0x14C4C690);
    Round(b, INITIAL, 69, 0x1A2EE6E6, 0x966E049A, 0xCF8658EC, 0x14C4C690, 0xF0F0B916, 0x2933B806, 0x07381B7E, 0x33E1963B);
  }

  lemma KeyRounds7(b: seq<byte>)
    requires |b| == 64 && Rounds(b, INITIAL, 70) == Sum(0x07381B7E, 0x966E049A, 0x33E1963B, 0x14C4C690, 0xF0F0B916)
    requires Schedule(b, 70) == 0x2D335896 && Schedule(b, 71) == 0xF3495D0B && Schedule(b, 72) == 0xF30E0A1D
    requires Schedule(b, 73) == 0x32CE5459 && Schedule(b, 74) == 0x7165E3B8 && Schedule(b, 75) == 0xAB05FF94
    requires Schedule(b, 76) == 0xC5949F0B && Schedule(b, 77) == 0xBCD84E4A && Schedule(b, 78) == 0x07720392
    requires Schedule(b, 79) == 0xFF3FF806
    ensures Rounds(b, INITIAL, 80) == Sum(0xF48A5426, 0x835995E1, 0x25C11EFB, 0x4A45C402, 0x9A73C2F2)
  {
    hide Schedule, Rounds;
    Round(b, INITIAL, 70, 0x2D335896, 0x07381B7E, 0x966E049A, 0x33E1963B, 0x14C4C690, 0xF0F0B916, 0x80D59773, 0xA59B8126);
    Round(b, INITIAL, 71, 0xF3495D0B, 0x80D59773, 0x07381B7E, 0xA59B8126, 0x33E1963B, 0x14C4C690, 0x7E65E044, 0x81CE06DF);
    Round(b, INITIAL, 72, 0xF30E0A1D, 0x7E65E044, 0x80D59773, 0x81CE06DF, 0xA59B8126, 0x33E1963B, 0x628E7B47, 0xE03565DC);
    Round(b, INITIAL, 73, 0x32CE5459, 0x628E7B47, 0x7E65E044, 0xE03565DC, 0x81CE06DF, 0xA59B8126, 0x143A8388, 0x1F997811);
    Round(b, INITIAL, 74, 0x7165E3B8, 0x143A8388, 0x628E7B47, 0x1F997811, 0xE03565DC, 0x81CE06DF, 0xE20983F9, 0xD8A39ED1);
    Round(b, INITIAL, 75, 0xAB05FF94, 0xE20983F9, 0x143A8388, 0xD8A39ED1, 0x1F997811, 0xE03565DC, 0x69CF0BCA, 0x050EA0E2);
    Round(b, INITIAL, 76, 0xC5949F0B, 0x69CF0BCA, 0xE20983F9, 0x050EA0E2, 0xD8A39ED1, 0x1F997811, 0x29171009, 0x788260FE);
    Round(b, INITIAL, 77, 0xBCD84E4A, 0x29171009, 0x69CF0BCA, 0x788260FE, 0x050EA0E2, 0xD8A39ED1, 0x97047BEC, 0x9A73C2F2);
    Round(b, INITIAL, 78, 0x07720392, 0x97047BEC, 0x29171009, 0x9A73C2F2, 0x788260FE, 0x050EA0E2, 0x835995E1, 0x4A45C402);
    Round(b, INITIAL, 79, 0xFF3FF806, 0x835995E1, 0x97047BEC, 0x4A45C402, 0x9A73C2F2, 0x788260FE, 0xF48A5426, 0x25C11EFB);
  }

  lemma KeyCompressed(b: seq<byte>)
    requires b == KeyBlock()
    ensures Compress(INITIAL, b) == Sum(0x5BCF7727, 0x7327416A, 0xBE7BFBF9, 0x5A781878, 0x5E46A4E2)
  {
    assert Rounds(b, INITIAL, 0) == Sum(0x67452301, 0xEFCDAB89, 0x98BADCFE, 0x10325476, 0xC3D2E1F0);
    hide Rounds, Schedule, KeyBlock;
    KeyWords0(b);
    KeyWords1(b);
    KeyWords2(b);
    KeyWords3(b);
    KeyWords4(b);
    KeyRounds0(b);
    KeyRounds1(b);
    KeyRounds2(b);
    KeyRounds3(b);
    KeyRounds4(b);
    KeyRounds5(b);
    KeyRounds6(b);
    KeyRounds7(b);
  }

  /** The hash of the first block. */
  const MIDDLE: Sum := Sum(0x5BCF7727, 0x7327416A, 0xBE7BFBF9, 0x5A781878, 0x5E46A4E2)

  function LastBlock(): (b: seq<byte>)
    ensures |b| == 64
  {
    Zeros(56) + ([0, 0, 0, 0, 0, 0] + [1, 0xE0])
  }

  lemma LastWords0(b: seq<byte>)
    requires b == LastBlock()
    ensures Schedule(b, 0) == 0x00000000 && Schedule(b, 1) == 0x00000000 && Schedule(b, 2) == 0x00000000
    ensures Schedule(b, 3) == 0x00000000 && Schedule(b, 4) == 0x00000000 && Schedule(b, 5) == 0x00000000
    ensures Schedule(b, 6) == 0x00000000 && Schedule(b, 7) == 0x00000000 && Schedule(b, 8) == 0x00000000
    ensures Schedule(b, 9) == 0x00000000 && Schedule(b, 10) == 0x00000000 && Schedule(b, 11) == 0x00000000
    ensures Schedule(b, 12) == 0x00000000 && Schedule(b, 13) == 0x00000000 && Schedule(b, 14) == 0x00000000
    ensures Schedule(b, 15) == 0x000001E0
  {
    forall t | 0 <= t < 15 ensures Schedule(b, t) == 0 { ScheduleIs(b, t); }
    ScheduleIs(b, 15);
  }

  lemma LastWords1(b: seq<byte>)
    requires b == LastBlock()
    ensures Schedule(b, 16) == 0x00000000 && Schedule(b, 17) == 0x00000000 && Schedule(b, 18) == 0x000003C0
    ensures Schedule(b, 19) == 0x00000000 && Schedule(b, 20) == 0x00000000 && Schedule(b, 21) == 0x00000780
    ensures Schedule(b, 22) == 0x00000000 && Schedule(b, 23) == 0x000003C0 && Schedule(b, 24) == 0x00000F00
    ensures Schedule(b, 25) == 0x00000000 && Schedule(b, 26) == 0x00000000 && Schedule(b, 27) == 0x00001E00
    ensures Schedule(b, 28) == 0x00000000 && Schedule(b, 29) == 0x00000CC0 && Schedule(b, 30) == 0x00003C00
    ensures Schedule(b, 31) == 0x00000440
  {
    LastWords0(b);
    hide Schedule, LastBlock;
    ScheduleIs(b, 16); ScheduleIs(b, 17); ScheduleIs(b, 18); ScheduleIs(b, 19);
    ScheduleIs(b, 20); ScheduleIs(b, 21); ScheduleIs(b, 22); ScheduleIs(b, 23);
    ScheduleIs(b, 24); ScheduleIs(b, 25); ScheduleIs(b, 26); ScheduleIs(b, 27);
    ScheduleIs(b, 28); ScheduleIs(b, 29); ScheduleIs(b, 30); ScheduleIs(b, 31);
  }

  lemma LastWords2(b: seq<byte>)
    requires b == LastBlock()
    ensures Schedule(b, 32) == 0x00000000 && Schedule(b, 33) == 0x00007800 && Schedule(b, 34) == 0x00000F00
    ensures Schedule(b, 35) == 0x00003300 && Schedule(b, 36) == 0x0000F000 && Schedule(b, 37) == 0x00000F00
    ensures Schedule(b, 38) == 0x00000000 && Schedule(b, 39) == 0x0001EF00 && Schedule(b, 40) == 0x00000000
    ensures Schedule(b, 41) == 0x0000CC00 && Schedule(b, 42) == 0x0003C000 && Schedule(b, 43) == 0x00004380
    ensures Schedule(b, 44) == 0x00000000 && Schedule(b, 45) == 0x00078F00 && Schedule(b, 46) == 0x0000FF00
    ensures Schedule(b, 47) == 0x00032680
  {
    LastWords1(b);
    hide Schedule, LastBlock;
    ScheduleIs(b, 32); ScheduleIs(b, 33); ScheduleIs(b, 34); ScheduleIs(b, 35);
    ScheduleIs(b, 36); ScheduleIs(b, 37); ScheduleIs(b, 38); ScheduleIs(b, 39);
    ScheduleIs(b, 40); ScheduleIs(b, 41); ScheduleIs(b, 42); ScheduleIs(b, 43);
    ScheduleIs(b, 44); ScheduleIs(b, 45); ScheduleIs(b, 46); ScheduleIs(b, 47);
  }

  lemma LastWords3(b: seq<byte>)
    requires b == LastBlock()
    ensures Schedule(b, 48) == 0x000F0000 && Schedule(b, 49) == 0x0000F000 && Schedule(b, 50) == 0x00003300
    ensures Schedule(b, 51) == 0x001EFF00 && Schedule(b, 52) == 0x00000000 && Schedule(b, 53) == 0x000CB800
    ensures Schedule(b, 54) == 0x003C0000 && Schedule(b, 55) == 0x00040B00 && Schedule(b, 56) == 0x0000F000
    ensures Schedule(b, 57) == 0x0078FF00 && Schedule(b, 58) == 0x000FF000 && Schedule(b, 59) == 0x00338700
    ensures Schedule(b, 60) == 0x00F00000 && Schedule(b, 61) == 0x000FC300 && Schedule(b, 62) == 0x0000F000
    ensures Schedule(b, 63) == 0x01EFBB00
  {
    LastWords2(b);
    hide Schedule, LastBlock;
    ScheduleIs(b, 48); ScheduleIs(b, 49); ScheduleIs(b, 50); ScheduleIs(b, 51);
    ScheduleIs(b, 52); ScheduleIs(b, 53); ScheduleIs(b, 54); ScheduleIs(b, 55);
    ScheduleIs(b, 56); ScheduleIs(b, 57); ScheduleIs(b, 58); ScheduleIs(b, 59);
    ScheduleIs(b, 60); ScheduleIs(b, 61); ScheduleIs(b, 62); ScheduleIs(b, 63);
  }

  lemma LastWords4(b: seq<byte>)
    requires b == LastBlock()
    ensures Schedule(b, 64) == 0x00000000 && Schedule(b, 65) == 0x00CC0000 && Schedule(b, 66) == 0x03C0F000
    ensures Schedule(b, 67) == 0x00438000 && Schedule(b, 68) == 0x00000000 && Schedule(b, 69) == 0x078F0000
    ensures Schedule(b, 70) == 0x00FF0000 && Schedule(b, 71) == 0x03269E00 && Schedule(b, 72) == 0x0F000000
    ensures Schedule(b, 73) == 0x00F0F000 && Schedule(b, 74) == 0x00333C00 && Schedule(b, 75) == 0x1EFF8800
    ensures Schedule(b, 76) == 0x00000000 && Schedule(b, 77) == 0x0CB88800 && Schedule(b, 78) == 0x3C00F000
    ensures Schedule(b, 79) == 0x040A4A00
  {
    LastWords3(b);
    hide Schedule, LastBlock;
    ScheduleIs(b, 64); ScheduleIs(b, 65); ScheduleIs(b, 66); ScheduleIs(b, 67);
    ScheduleIs(b, 68); ScheduleIs(b, 69); ScheduleIs(b, 70); ScheduleIs(b, 71);
    ScheduleIs(b, 72); ScheduleIs(b, 73); ScheduleIs(b, 74); ScheduleIs(b, 75);
    ScheduleIs(b, 76); ScheduleIs(b, 77); ScheduleIs(b, 78); ScheduleIs(b, 79);
  }

  lemma LastRounds0(b: seq<byte>)
    requires |b| == 64 && Rounds(b, MIDDLE, 0) == Sum(0x5BCF7727, 0x7327416A, 0xBE7BFBF9, 0x5A781878, 0x5E46A4E2)
    requires Schedule(b, 0) == 0x00000000 && Schedule(b, 1) == 0x00000000 && Schedule(b, 2) == 0x00000000
    requires Schedule(b, 3) == 0x00000000 && Schedule(b, 4) == 0x00000000 && Schedule(b, 5) == 0x00000000
    requires Schedule(b, 6) == 0x00000000 && Schedule(b, 7) == 0x00000000 && Schedule(b, 8) == 0x00000000
    requires Schedule(b, 9) == 0x00000000
    ensures Rounds(b, MIDDLE, 10) == Sum(0x0B0814C3, 0x80946593, 0x8970062F, 0xACEEF2BF, 0xE4E97BEE)
  {
    hide Schedule, Rounds;
    Round(b, MIDDLE, 0, 0x00000000, 0x5BCF7727, 0x7327416A, 0xBE7BFBF9, 0x5A781878, 0x5E46A4E2, 0x6D335CDE, 0x9CC9D05A);
    Round(b, MIDDLE, 1, 0x00000000, 0x6D335CDE, 0x5BCF7727, 0x9CC9D05A, 0xBE7BFBF9, 0x5A781878, 0x186006B8, 0xD6F3DDC9);
    Round(b, MIDDLE, 2, 0x00000000, 0x186006B8, 0x6D335CDE, 0xD6F3DDC9, 0x9CC9D05A, 0xBE7BFBF9, 0xF9FB295D, 0x9B4CD737);
    Round(b, MIDDLE, 3, 0x00000000, 0xF9FB295D, 0x186006B8, 0x9B4CD737, 0xD6F3DDC9, 0x9CC9D05A, 0x15855523, 0x061801AE);
    Round(b, MIDDLE, 4, 0x00000000, 0x15855523, 0xF9FB295D, 0x061801AE, 0x9B4CD737, 0xD6F3DDC9, 0xE43DD2F2, 0x7E7ECA57);
    Round(b, MIDDLE, 5, 0x00000000, 0xE43DD2F2, 0x15855523, 0x7E7ECA57, 0x061801AE, 0x9B4CD737, 0x93A5EFBB, 0xC5615548);
    Round(b, MIDDLE, 6, 0x00000000, 0x93A5EFBB, 0xE43DD2F2, 0xC5615548, 0x7E7ECA57, 0x061801AE, 0xB3BBCAFE, 0xB90F74BC);
    Round(b, MIDDLE, 7, 0x00000000, 0xB3BBCAFE, 0x93A5EFBB, 0xB90F74BC, 0xC5615548, 0x7E7ECA57, 0x25C018BE, 0xE4E97BEE);
    Round(b, MIDDLE, 8, 0x00000000, 0x25C018BE, 0xB3BBCAFE, 0xE4E97BEE, 0xB90F74BC, 0xC5615548, 0x80946593, 0xACEEF2BF);
    Round(b, MIDDLE, 9, 0x00000000, 0x80946593, 0x25C018BE, 0xACEEF2BF, 0xE4E97BEE, 0xB90F74BC, 0x0B0814C3, 0x8970062F);
  }

  lemma LastRounds1(b: seq<byte>)
    requires |b| == 64 && Rounds(b, MIDDLE, 10) == Sum(0x0B0814C3, 0x80946593, 0x8970062F, 0xACEEF2BF, 0xE4E97BEE)
    requires Schedule(b, 10) == 0x00000000 && Schedule(b, 11) == 0x00000000 && Schedule(b, 12) == 0x00000000
    requires Schedule(b, 13) == 0x00000000 && Schedule(b, 14) == 0x00000000 && Schedule(b, 15) == 0x000001E0
    requires Schedule(b, 16) == 0x00000000 && Schedule(b, 17) == 0x00000000 && Schedule(b, 18) == 0x000003C0
    requires Schedule(b, 19) == 0x00000000
    ensures Rounds(b, MIDDLE, 20) == Sum(0x2A008B51, 0x2F193A09, 0x9C8663C1, 0x8EB5D103, 0x261B7C9A)
  {
    hide Schedule, Rounds;
    Round(b, MIDDLE, 10, 0x00000000, 0x0B0814C3, 0x80946593, 0x8970062F, 0xACEEF2BF, 0xE4E97BEE, 0x4CE92417, 0xE0251964);
    Round(b, MIDDLE, 11, 0x00000000, 0x4CE92417, 0x0B0814C3, 0xE0251964, 0x8970062F, 0xACEEF2BF, 0x250601AD, 0xC2C20530);
    Round(b, MIDDLE, 12, 0x00000000, 0x250601AD, 0x4CE92417, 0xC2C20530, 0xE0251964, 0x8970062F, 0x6576D2DC, 0xD33A4905);
    Round(b, MIDDLE, 13, 0x00000000, 0x6576D2DC, 0x250601AD, 0xD33A4905, 0xC2C20530, 0xE0251964, 0xAD43F39E, 0x4941806B);
    Round(b, MIDDLE, 14, 0x00000000, 0xAD43F39E, 0x6576D2DC, 0x4941806B, 0xD33A4905, 0xC2C20530, 0x990B7BE7, 0x195DB4B7);
    Round(b, MIDDLE, 15, 0x000001E0, 0x990B7BE7, 0xAD43F39E, 0x195DB4B7, 0x4941806B, 0xD33A4905, 0x986DF268, 0xAB50FCE7);
    Round(b, MIDDLE, 16, 0x00000000, 0x986DF268, 0x990B7BE7, 0xAB50FCE7, 0x195DB4B7, 0x4941806B, 0x3AD7440E, 0xE642DEF9);
    Round(b, MIDDLE, 17, 0x00000000, 0x3AD7440E, 0x986DF268, 0xE642DEF9, 0xAB50FCE7, 0x195DB4B7, 0x72198F06, 0x261B7C9A);
    Round(b, MIDDLE, 18, 0x000003C0, 0x72198F06, 0x3AD7440E, 0x261B7C9A, 0xE642DEF9, 0xAB50FCE7, 0x2F193A09, 0x8EB5D103);
    Round(b, MIDDLE, 19, 0x00000000, 0x2F193A09, 0x72198F06, 0x8EB5D103, 0x261B7C9A, 0xE642DEF9, 0x2A008B51, 0x9C8663C1);
  }

  lemma LastRounds2(b: seq<byte>)
    requires |b| == 64 && Rounds(b, MIDDLE, 20) == Sum(0x2A008B51, 0x2F193A09, 0x9C8663C1, 0x8EB5D103, 0x261B7C9A)
    requires Schedule(b, 20) == 0x00000000 && Schedule(b, 21) == 0x00000780 && Schedule(b, 22) == 0x00000000
    requires Schedule(b, 23) == 0x000003C0 && Schedule(b, 24) == 0x00000F00 && Schedule(b, 25) == 0x00000000
    requires Schedule(b, 26) == 0x00000000 && Schedule(b, 27) == 0x00001E00 && Schedule(b, 28) == 0x00000000
    requires Schedule(b, 29) == 0x00000CC0
    ensures Rounds(b, MIDDLE, 30) == Sum(0x243EE057, 0xF57CB53E, 0xE4C9F7DB, 0xB4B9C9B6, 0x591B19DF)
  {
    hide Schedule, Rounds;
    Round(b, MIDDLE, 20, 0x00000000, 0x2A008B51, 0x2F193A09, 0x9C8663C1, 0x8EB5D103, 0x261B7C9A, 0x12315B2B, 0x4BC64E82);
    Round(b, MIDDLE, 21, 0x00000780, 0x12315B2B, 0x2A008B51, 0x4BC64E82, 0x9C8663C1, 0x8EB5D103, 0x40FBCF98, 0x4A8022D4);
    Round(b, MIDDLE, 22, 0x00000000, 0x40FBCF98, 0x12315B2B, 0x4A8022D4, 0x4BC64E82, 0x9C8663C1, 0x3E5179E7, 0xC48C56CA);
    Round(b, MIDDLE, 23, 0x000003C0, 0x3E5179E7, 0x40FBCF98, 0xC48C56CA, 0x4A8022D4, 0x4BC64E82, 0x53C73650, 0x103EF3E6);
    Round(b, MIDDLE, 24, 0x00000F00, 0x53C73650, 0x3E5179E7, 0x103EF3E6, 0xC48C56CA, 0x4A8022D4, 0x1D24C44A, 0xCF945E79);
    Round(b, MIDDLE, 25, 0x00000000, 0x1D24C44A, 0x53C73650, 0xCF945E79, 0x103EF3E6, 0xC48C56CA, 0x646C677D, 0x14F1CD94);
    Round(b, MIDDLE, 26, 0x00000000, 0x646C677D, 0x1D24C44A, 0x14F1CD94, 0xCF945E79, 0x103EF3E6, 0xD2E726DA, 0x87493112);
    Round(b, MIDDLE, 27, 0x00001E00, 0xD2E726DA, 0x646C677D, 0x87493112, 0x14F1CD94, 0xCF945E79, 0x9327DF6F, 0x591B19DF);
    Round(b, MIDDLE, 28, 0x00000000, 0x9327DF6F, 0xD2E726DA, 0x591B19DF, 0x87493112, 0x14F1CD94, 0xF57CB53E, 0xB4B9C9B6);
    Round(b, MIDDLE, 29, 0x00000CC0, 0xF57CB53E, 0x9327DF6F, 0xB4B9C9B6, 0x591B19DF, 0x87493112, 0x243EE057, 0xE4C9F7DB);
  }

  lemma LastRounds3(b: seq<byte>)
    requires |b| == 64 && Rounds(b, MIDDLE, 30) == Sum(0x243EE057, 0xF57CB53E, 0xE4C9F7DB, 0xB4B9C9B6, 0x591B19DF)
    requires Schedule(b, 30) == 0x00003C00 && Schedule(b, 31) == 0x00000440 && Schedule(b, 32) == 0x00000000
    requires Schedule(b, 33) == 0x00007800 && Schedule(b, 34) == 0x00000F00 && Schedule(b, 35) == 0x00003300
    requires Schedule(b, 36) == 0x0000F000 && Schedule(b, 37) == 0x00000F00 && Schedule(b, 38) == 0x00000000
    requires Schedule(b, 39) == 0x0001EF00
    ensures Rounds(b, MIDDLE, 40) == Sum(0x6F698F1A, 0xC6FF0CD3, 0xDE5AB7BC, 0x5F6F3CBB, 0x1DA48A85)
  {
    hide Schedule, Rounds;
    Round(b, MIDDLE, 30, 0x00003C00, 0x243EE057, 0xF57CB53E, 0xE4C9F7DB, 0xB4B9C9B6, 0x591B19DF, 0xF4DDD7B7, 0xBD5F2D4F);
    Round(b, MIDDLE, 31, 0x00000440, 0xF4DDD7B7, 0x243EE057, 0xBD5F2D4F, 0xE4C9F7DB, 0xB4B9C9B6, 0x3CF6EB58, 0xC90FB815);
    Round(b, MIDDLE, 32, 0x00000000, 0x3CF6EB58, 0xF4DDD7B7, 0xC90FB815, 0xBD5F2D4F, 0xE4C9F7DB, 0x730E9170, 0xFD3775ED);
    Round(b, MIDDLE, 33, 0x00007800, 0x730E9170, 0x3CF6EB58, 0xFD3775ED, 0xC90FB815, 0xBD5F2D4F, 0x96D9E59E, 0x0F3DBAD6);
    Round(b, MIDDLE, 34, 0x00000F00, 0x96D9E59E, 0x730E9170, 0x0F3DBAD6, 0xFD3775ED, 0xC90FB815, 0x942AC4D3, 0x1CC3A45C);
    Round(b, MIDDLE, 35, 0x00003300, 0x942AC4D3, 0x96D9E59E, 0x1CC3A45C, 0x0F3DBAD6, 0xFD3775ED, 0x76922A14, 0xA5B67967);
    Round(b, MIDDLE, 36, 0x0000F000, 0x76922A14, 0x942AC4D3, 0xA5B67967, 0x1CC3A45C, 0x0F3DBAD6, 0x7DBCF2ED, 0xE50AB134);
    Round(b, MIDDLE, 37, 0x00000F00, 0x7DBCF2ED, 0x76922A14, 0xE50AB134, 0xA5B67967, 0x1CC3A45C, 0x796ADEF3, 0x1DA48A85);
    Round(b, MIDDLE, 38, 0x00000000, 0x796ADEF3, 0x7DBCF2ED, 0x1DA48A85, 0xE50AB134, 0xA5B67967, 0xC6FF0CD3, 0x5F6F3CBB);
    Round(b, MIDDLE, 39, 0x0001EF00, 0xC6FF0CD3, 0x796ADEF3, 0x5F6F3CBB, 0x1DA48A85, 0xE50AB134, 0x6F698F1A, 0xDE5AB7BC);
  }

  lemma LastRounds4(b: seq<byte>)
    requires |b| == 64 && Rounds(b, MIDDLE, 40) == Sum(0x6F698F1A, 0xC6FF0CD3, 0xDE5AB7BC, 0x5F6F3CBB, 0x1DA48A85)
    requires Schedule(b, 40) == 0x00000000 && Schedule(b, 41) == 0x0000CC00 && Schedule(b, 42) == 0x0003C000
    requires Schedule(b, 43) == 0x00004380 && Schedule(b, 44) == 0x00000000 && Schedule(b, 45) == 0x00078F00
    requires Schedule(b, 46) == 0x0000FF00 && Schedule(b, 47) == 0x00032680 && Schedule(b, 48) == 0x000F0000
    requires Schedule(b, 49) == 0x0000F000
    ensures Rounds(b, MIDDLE, 50) == Sum(0xA516F265, 0xA39F2041, 0xA8FBE15F, 0xB23368F6, 0xCEF6480E)
  {
    hide Schedule, Rounds;
    Round(b, MIDDLE, 40, 0x00000000, 0x6F698F1A, 0xC6FF0CD3, 0xDE5AB7BC, 0x5F6F3CBB, 0x1DA48A85, 0x78716769, 0xF1BFC334);
    Round(b, MIDDLE, 41, 0x0000CC00, 0x78716769, 0x6F698F1A, 0xF1BFC334, 0xDE5AB7BC, 0x5F6F3CBB, 0xFC343A02, 0x9BDA63C6);
    Round(b, MIDDLE, 42, 0x0003C000, 0xFC343A02, 0x78716769, 0x9BDA63C6, 0xF1BFC334, 0xDE5AB7BC, 0xEDFCD85B, 0x5E1C59DA);
    Round(b, MIDDLE, 43, 0x00004380, 0xEDFCD85B, 0xFC343A02, 0x5E1C59DA, 0x9BDA63C6, 0xF1BFC334, 0x1E934ACF, 0xBF0D0E80);
    Round(b, MIDDLE, 44, 0x00000000, 0x1E934ACF, 0xEDFCD85B, 0xBF0D0E80, 0x5E1C59DA, 0x9BDA63C6, 0xFC7BD35F, 0xFB7F3616);
    Round(b, MIDDLE, 45, 0x00078F00, 0xFC7BD35F, 0x1E934ACF, 0xFB7F3616, 0xBF0D0E80, 0x5E1C59DA, 0x3BD9203B, 0xC7A4D2B3);
    Round(b, MIDDLE, 46, 0x0000FF00, 0x3BD9203B, 0xFC7BD35F, 0xC7A4D2B3, 0xFB7F3616, 0xBF0D0E80, 0xC8CDA3DA, 0xFF1EF4D7);
    Round(b, MIDDLE, 47, 0x00032680, 0xC8CDA3DA, 0x3BD9203B, 0xFF1EF4D7, 0xC7A4D2B3, 0xFB7F3616, 0xA3EF857E, 0xCEF6480E);
    Round(b, MIDDLE, 48, 0x000F0000, 0xA3EF857E, 0xC8CDA3DA, 0xCEF6480E, 0xFF1EF4D7, 0xC7A4D2B3, 0xA39F2041, 0xB23368F6);
    Round(b, MIDDLE, 49, 0x0000F000, 0xA39F2041, 0xA3EF857E, 0xB23368F6, 0xCEF6480E, 0xFF1EF4D7, 0xA516F265, 0xA8FBE15F);
  }

  lemma LastRounds5(b: seq<byte>)
    requires |b| == 64 && Rounds(b, MIDDLE, 50) == Sum(0xA516F265, 0xA39F2041, 0xA8FBE15F, 0xB23368F6, 0xCEF6480E)
    requires Schedule(b, 50) == 0x00003300 && Schedule(b, 51) == 0x001EFF00 && Schedule(b, 52) == 0x00000000
    requires Schedule(b, 53) == 0x000CB800 && Schedule(b, 54) == 0x003C0000 && Schedule(b, 55) == 0x00040B00
    requires Schedule(b, 56) == 0x0000F000 && Schedule(b, 57) == 0x0078FF00 && Schedule(b, 58) == 0x000FF000
    requires Schedule(b, 59) == 0x00338700
    ensures Rounds(b, MIDDLE, 60) == Sum(0x56119F19, 0x085EB2FE, 0x484A25C5, 0xC140CFE8, 0x686DA050)
  {
    hide Schedule, Rounds;
    Round(b, MIDDLE, 50, 0x00003300, 0xA516F265, 0xA39F2041, 0xA8FBE15F, 0xB23368F6, 0xCEF6480E, 0xA3ABE4F5, 0x68E7C810);
    Round(b, MIDDLE, 51, 0x001EFF00, 0xA3ABE4F5, 0xA516F265, 0x68E7C810, 0xA8FBE15F, 0xB23368F6, 0x5FE2A3DB, 0x6945BC99);
    Round(b, MIDDLE, 52, 0x00000000, 0x5FE2A3DB, 0xA3ABE4F5, 0x6945BC99, 0x68E7C810, 0xA8FBE15F, 0x9E540637, 0x68EAF93D);
    Round(b, MIDDLE, 53, 0x000CB800, 0x9E540637, 0x5FE2A3DB, 0x68EAF93D, 0x6945BC99, 0x68E7C810, 0x2C73BD78, 0xD7F8A8F6);
    Round(b, MIDDLE, 54, 0x003C0000, 0x2C73BD78, 0x9E540637, 0xD7F8A8F6, 0x68EAF93D, 0x6945BC99, 0x660DD0B1, 0xE795018D);
    Round(b, MIDDLE, 55, 0x00040B00, 0x660DD0B1, 0x2C73BD78, 0xE795018D, 0xD7F8A8F6, 0x68EAF93D, 0xA1B68141, 0x0B1CEF5E);
    Round(b, MIDDLE, 56, 0x0000F000, 0xA1B68141, 0x660DD0B1, 0x0B1CEF5E, 0xE795018D, 0xD7F8A8F6, 0x05033FA3, 0x5983742C);
    Round(b, MIDDLE, 57, 0x0078FF00, 0x05033FA3, 0xA1B68141, 0x5983742C, 0x0B1CEF5E, 0xE795018D, 0x21289715, 0x686DA050);
    Round(b, MIDDLE, 58, 0x000FF000, 0x21289715, 0x05033FA3, 0x686DA050, 0x5983742C, 0x0B1CEF5E, 0x085EB2FE, 0xC140CFE8);
    Round(b, MIDDLE, 59, 0x00338700, 0x085EB2FE, 0x21289715, 0xC140CFE8, 0x686DA050, 0x5983742C, 0x56119F19, 0x484A25C5);
  }

  lemma LastRounds6(b: seq<byte>)
    requires |b| == 64 && Rounds(b, MIDDLE, 60) == Sum(0x56119F19, 0x085EB2FE, 0x484A25C5, 0xC140CFE8, 0x686DA050)
    requires Schedule(b, 60) == 0x00F00000 && Schedule(b, 61) == 0x000FC300 && Schedule(b, 62) == 0x0000F000
    requires Schedule(b, 63) == 0x01EFBB00 && Schedule(b, 64) == 0x00000000 && Schedule(b, 65) == 0x00CC0000
    requires Schedule(b, 66) == 0x03C0F000 && Schedule(b, 67) == 0x00438000 && Schedule(b, 68) == 0x00000000
    requires Schedule(b, 69) == 0x078F0000
    ensures Rounds(b, MIDDLE, 70) == Sum(0xBF3A7F95, 0x4E363DB9, 0x025E9447, 0x325FC65A, 0xC5E88BBD)
  {
    hide Schedule, Rounds;
    Round(b, MIDDLE, 60, 0x00F00000, 0x56119F19, 0x085EB2FE, 0x484A25C5, 0xC140CFE8, 0x686DA050, 0x77489E23, 0x8217ACBF);
    Round(b, MIDDLE, 61, 0x000FC300, 0x77489E23, 0x56119F19, 0x8217ACBF, 0x484A25C5, 0xC140CFE8, 0x11132F8F, 0x558467C6);
    Round(b, MIDDLE, 62, 0x0000F000, 0x11132F8F, 0x77489E23, 0x558467C6, 0x8217ACBF, 0x484A25C5, 0xD5EF1ED7, 0xDDD22788);
    Round(b, MIDDLE, 63, 0x01EFBB00, 0xD5EF1ED7, 0x11132F8F, 0xDDD22788, 0x558467C6, 0x8217ACBF, 0xA5937450, 0xC444CBE3);
    Round(b, MIDDLE, 64, 0x00000000, 0xA5937450, 0xD5EF1ED7, 0xC444CBE3, 0xDDD22788, 0x558467C6, 0x9ECFA66C, 0xF57BC7B5);
    Round(b, MIDDLE, 65, 0x00CC0000, 0x9ECFA66C, 0xA5937450, 0xF57BC7B5, 0xC444CBE3, 0xDDD22788, 0x17A22EF7, 0x2964DD14);
    Round(b, MIDDLE, 66, 0x03C0F000, 0x17A22EF7, 0x9ECFA66C, 0x2964DD14, 0xF57BC7B5, 0xC444CBE3, 0xC97F1968, 0x27B3E99B);
    Round(b, MIDDLE, 67, 0x00438000, 0xC97F1968, 0x17A22EF7, 0x27B3E99B, 0x2964DD14, 0xF57BC7B5, 0x097A511C, 0xC5E88BBD);
    Round(b, MIDDLE, 68, 0x00000000, 0x097A511C, 0xC97F1968, 0xC5E88BBD, 0x27B3E99B, 0x2964DD14, 0x4E363DB9, 0x325FC65A);
    Round(b, MIDDLE, 69, 0x078F0000, 0x4E363DB9, 0x097A511C, 0x325FC65A, 0xC5E88BBD, 0x27B3E99B, 0xBF3A7F95, 0x025E9447);
  }

  lemma LastRounds7(b: seq<byte>)
    requires |b| == 64 && Rounds(b, MIDDLE, 70) == Sum(0xBF3A7F95, 0x4E363DB9, 0x025E9447, 0x325FC65A, 0xC5E88BBD)
    requires Schedule(b, 70) == 0x00FF0000 && Schedule(b, 71) == 0x03269E00 && Schedule(b, 72) == 0x0F000000
    requires Schedule(b, 73) == 0x00F0F000 && Schedule(b, 74) == 0x00333C00 && Schedule(b, 75) == 0x1EFF8800
    requires Schedule(b, 76) == 0x00000000 && Schedule(b, 77) == 0x0CB88800 && Schedule(b, 78) == 0x3C00F000
    requires Schedule(b, 79) == 0x040A4A00
    ensures Rounds(b, MIDDLE, 80) == Sum(0x57AAD805, 0x4D3B0DAC, 0xD27A4A0D, 0x74C040CD, 0x54782008)
  {
    hide Schedule, Rounds;
    Round(b, MIDDLE, 70, 0x00FF0000, 0xBF3A7F95, 0x4E363DB9, 0x025E9447, 0x325FC65A, 0xC5E88BBD, 0xF6D1AFEE, 0x538D8F6E);
    Round(b, MIDDLE, 71, 0x03269E00, 0xF6D1AFEE, 0xBF3A7F95, 0x538D8F6E, 0x025E9447, 0x325FC65A, 0xC90888CA, 0x6FCE9FE5);
    Round(b, MIDDLE, 72, 0x0F000000, 0xC90888CA, 0xF6D1AFEE, 0x6FCE9FE5, 0x538D8F6E, 0x025E9447, 0xC7652EDB, 0xBDB46BFB);
    Round(b, MIDDLE, 73, 0x00F0F000, 0xC7652EDB, 0xC90888CA, 0xBDB46BFB, 0x6FCE9FE5, 0x538D8F6E, 0x26F99990, 0xB2422232);
    Round(b, MIDDLE, 74, 0x00333C00, 0x26F99990, 0xC7652EDB, 0xB2422232, 0xBDB46BFB, 0x6FCE9FE5, 0xE22B36D1, 0xF1D94BB6);
    Round(b, MIDDLE, 75, 0x1EFF8800, 0xE22B36D1, 0x26F99990, 0xF1D94BB6, 0xB2422232, 0xBDB46BFB, 0x51E08021, 0x09BE6664);
    Round(b, MIDDLE, 76, 0x00000000, 0x51E08021, 0xE22B36D1, 0x09BE6664, 0xF1D94BB6, 0xB2422232, 0xD3010335, 0x788ACDB4);
    Round(b, MIDDLE, 77, 0x0CB88800, 0xD3010335, 0x51E08021, 0x788ACDB4, 0x09BE6664, 0xF1D94BB6, 0x49E92837, 0x54782008);
    Round(b, MIDDLE, 78, 0x3C00F000, 0x49E92837, 0xD3010335, 0x54782008, 0x788ACDB4, 0x09BE6664, 0x4D3B0DAC, 0x74C040CD);
    Round(b, MIDDLE, 79, 0x040A4A00, 0x4D3B0DAC, 0x49E92837, 0x74C040CD, 0x54782008, 0x788ACDB4, 0x57AAD805, 0xD27A4A0D);
  }

  lemma LastCompressed(b: seq<byte>)
    requires b == LastBlock()
    ensures Compress(MIDDLE, b) == Sum(0xB37A4F2C, 0xC0624F16, 0x90F64606, 0xCF385945, 0xB2BEC4EA)
  {
    assert Rounds(b, MIDDLE, 0) == Sum(0x5BCF7727, 0x7327416A, 0xBE7BFBF9, 0x5A781878, 0x5E46A4E2);
    hide Rounds, Schedule, LastBlock;
    LastWords0(b);
    LastWords1(b);
    LastWords2(b);
    LastWords3(b);
    LastWords4(b);
    LastRounds0(b);
    LastRounds1(b);
    LastRounds2(b);
    LastRounds3(b);
    LastRounds4(b);
    LastRounds5(b);
    LastRounds6(b);
    LastRounds7(b);
  }

  /** A message that leaves room in its block for the one bit but not for the length. */
  lemma TwoBlocks(m: seq<byte>, length: seq<byte>)
    requires |m| == 60 && length == LengthBytes(60)
    ensures Padded(m) == (m + [0x80, 0, 0, 0]) + (Zeros(56) + length)
  {
    hide LengthBytes;
    PaddedIs(m, 59, length);
    assert [0x80] + Zeros(59) == [0x80, 0, 0, 0] + Zeros(56);
  }

  lemma HashTwo(a: seq<byte>, b: seq<byte>, h: Sum)
    requires |a| == 64 && |b| == 64 && Compress(INITIAL, a) == h
    ensures Whole(a + b) && Hash(a + b) == Compress(h, b)
  {
    hide Compress;
    HashAppend([], a);
    HashAppend(a, b);
    assert [] + a == a;
  }

  lemma KeyLength()
    ensures LengthBytes(60) == [0, 0, 0, 0, 0, 0] + [1, 0xE0]
  {
    SmallLength(60);
    Be16Is(480, 1, 0xE0);
    hide LengthBytes, Be16;
  }

  lemma KeyDigest()
    ensures Digest(KEY + Handshake.GUID) == Sum(0xB37A4F2C, 0xC0624F16, 0x90F64606, 0xCF385945, 0xB2BEC4EA)
  {
    KeyLength();
    KeyCompressed(KeyBlock());
    LastCompressed(LastBlock());
    HashTwo(KeyBlock(), LastBlock(), MIDDLE);
    hide Zeros, Compress, Padded, LengthBytes, Hash;
    TwoBlocks(KEY + Handshake.GUID, [0, 0, 0, 0, 0, 0] + [1, 0xE0]);
  }

  /** GUID is the string of section 1.3. */
  lemma GuidIsString()
    ensures Handshake.GUID ==
              Ascii("258EAFA5-E91") + Ascii("4-47DA-95CA-") + Ascii("C5AB0DC85B11")
  {
    GuidRow0("258EAFA5-E91");
    GuidRow1("4-47DA-95CA-");
    GuidRow2("C5AB0DC85B11");
    hide Ascii;
  }

  /** The key of the sample. */
  lemma KeyIsString()
    ensures KEY == Ascii("dGhlIHNhbXBs") + Ascii("ZSBub25jZQ==")
  {
    KeyRow0("dGhlIHNhbXBs");
    KeyRow1("ZSBub25jZQ==");
    hide Ascii;
  }

  lemma KeyRow0(s: string)
    requires s == "dGhlIHNhbXBs"
    ensures Ascii(s) == [0x64, 0x47, 0x68, 0x6C, 0x49, 0x48, 0x4E, 0x68, 0x62, 0x58, 0x42, 0x73]
  {
  }

  lemma KeyRow1(s: string)
    requires s == "ZSBub25jZQ=="
    ensures Ascii(s) == [0x5A, 0x53, 0x42, 0x75, 0x62, 0x32, 0x35, 0x6A, 0x5A, 0x51, 0x3D, 0x3D]
  {
  }

  function Ascii(s: string): seq<byte>
  {
    seq(|s|, i requires 0 <= i < |s| => if s[i] as int < 256 then ToByte(s[i] as int) else 0)
  }

  lemma GuidRow0(s: string)
    requires s == "258EAFA5-E91"
    ensures Ascii(s) == [50, 53, 56, 69, 65, 70, 65, 53, 45, 69, 57, 49]
  {
  }

  lemma GuidRow1(s: string)
    requires s == "4-47DA-95CA-"
    ensures Ascii(s) == [52, 45, 52, 55, 68, 65, 45, 57, 53, 67, 65, 45]
  {
  }

  lemma GuidRow2(s: string)
    requires s == "C5AB0DC85B11"
    ensures Ascii(s) == [67, 53, 65, 66, 48, 68, 67, 56, 53, 66, 49, 49]
  {
  }

  lemma KeyGroups()
    ensures Base64.Group(0xB3, 0x7A, 0x4F) == 0xB37A4F && Base64.Group(0x2C, 0xC0, 0x62) == 0x2CC062
    ensures Base64.Group(0x4F, 0x16, 0x90) == 0x4F1690 && Base64.Group(0xF6, 0x46, 0x06) == 0xF64606
    ensures Base64.Group(0xCF, 0x38, 0x59) == 0xCF3859 && Base64.Group(0x45, 0xB2, 0xBE) == 0x45B2BE
    ensures Base64.Group(0xC4, 0xEA, 0) == 0xC4EA00
  {
  }

  lemma KeyQuads0()
    ensures Base64.Quad(0xB37A4F) == "s3pP" && Base64.Quad(0x2CC062) == "LMBi" && Base64.Quad(0x4F1690) == "TxaQ"
  {
  }

  lemma KeyQuads1()
    ensures Base64.Quad(0xF64606) == "9kYG" && Base64.Quad(0xCF3859) == "zzhZ" && Base64.Quad(0x45B2BE) == "RbK+"
  {
  }

  lemma KeyQuads2()
    ensures Base64.Quad(0xC4EA00) == "xOoA"
  {
  }

  /** The sample of section 1.3 of RFC 6455. */
  lemma SampleAcceptKey()
    ensures Handshake.AcceptKey(KEY) == "s3pP" + "LMBi" + "TxaQ" + "9kYG" + "zzhZ" + "RbK+" + "xOo="
  {
    KeyDigest();
    KeyBytesOut();
    KeyEncoded();
    hide Digest, Handshake.DigestBytes, Base64.Letters;
  }

  lemma KeyBytesOut()
    ensures Handshake.DigestBytes(Sum(0xB37A4F2C, 0xC0624F16, 0x90F64606, 0xCF385945, 0xB2BEC4EA)) == KEY_DIGEST
  {
  }

  const KEY_DIGEST: seq<byte> :=
    [0xB3, 0x7A, 0x4F] + ([0x2C, 0xC0, 0x62] + ([0x4F, 0x16, 0x90] + ([0xF6, 0x46, 0x06] +
    ([0xCF, 0x38, 0x59] + ([0x45, 0xB2, 0xBE] + [0xC4, 0xEA])))))

  lemma KeyEncoded()
    ensures Base64.Encoded(KEY_DIGEST) == "s3pP" + "LMBi" + "TxaQ" + "9kYG" + "zzhZ" + "RbK+" + "xOo="
  {
    var r6 := [0xC4, 0xEA];
    var r5 := [0x45, 0xB2, 0xBE] + r6;
    var r4 := [0xCF, 0x38, 0x59] + r5;
    var r3 := [0xF6, 0x46, 0x06] + r4;
    var r2 := [0x4F, 0x16, 0x90] + r3;
    var r1 := [0x2C, 0xC0, 0x62] + r2;
    KeyGroups();
    KeyQuads0();
    KeyQuads1();
    KeyQuads2();
    hide Base64.Quad, Base64.Group;
    Base64.LettersStep(0xB3, 0x7A, 0x4F, r1);
    Base64.LettersStep(0x2C, 0xC0, 0x62, r2);
    Base64.LettersStep(0x4F, 0x16, 0x90, r3);
    Base64.LettersStep(0xF6, 0x46, 0x06, r4);
    Base64.LettersStep(0xCF, 0x38, 0x59, r5);
    Base64.LettersStep(0x45, 0xB2, 0xBE, r6);
    assert Base64.Letters(r6) == "xOoA"[..3] == "xOo";
    assert |KEY_DIGEST| == 20 && Base64.Padding(1) == "=";
  }
}
