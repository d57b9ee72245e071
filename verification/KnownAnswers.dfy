// A known answer: the digest of "abc" in appendix A of FIPS 180-1, every word of
// the schedule and every step written out.

module KnownAnswers {
  import opened Bytes
  import opened Sha1
  import Handshake

  /** One step from written-out buffers: the new A, and B rotated. */
  lemma Round(block: seq<byte>, h: Sum, t: nat, w: word, a: word, b: word, c: word, d: word, e: word, a1: word, c1: word)
    requires |block| == 64 && t < 80 && Schedule(block, t) == w && Rounds(block, h, t) == Sum(a, b, c, d, e)
    requires a1 == Add(Add(Add(Add(CircularShift(5, a), F(t, b, c, d)), e), w), K(t)) && c1 == CircularShift(30, b)
    ensures Rounds(block, h, t + 1) == Sum(a1, a, c1, c, d)
  {
    hide CircularShift, Add, F, K, Schedule;
  }

  // ---- "abc" ----

  const ABC: seq<byte> := [0x61, 0x62, 0x63]

  function AbcBlock(): (b: seq<byte>)
    ensures |b| == 64
  {
    ABC + ([0x80] + Zeros(52) + ([0, 0, 0, 0, 0, 0] + [0, 24]))
  }

  lemma AbcWords0(b: seq<byte>)
    requires b == AbcBlock()
    ensures Schedule(b, 0) == 0x61626380 && Schedule(b, 1) == 0x00000000 && Schedule(b, 2) == 0x00000000
    ensures Schedule(b, 3) == 0x00000000 && Schedule(b, 4) == 0x00000000 && Schedule(b, 5) == 0x00000000
    ensures Schedule(b, 6) == 0x00000000 && Schedule(b, 7) == 0x00000000 && Schedule(b, 8) == 0x00000000
    ensures Schedule(b, 9) == 0x00000000 && Schedule(b, 10) == 0x00000000 && Schedule(b, 11) == 0x00000000
    ensures Schedule(b, 12) == 0x00000000 && Schedule(b, 13) == 0x00000000 && Schedule(b, 14) == 0x00000000
    ensures Schedule(b, 15) == 0x00000018
  {
    forall t | 1 <= t < 15 ensures Schedule(b, t) == 0 { ScheduleIs(b, t); }
    ScheduleIs(b, 0);
    ScheduleIs(b, 15);
  }

  lemma AbcWords1(b: seq<byte>)
    requires b == AbcBlock()
    ensures Schedule(b, 16) == 0xC2C4C700 && Schedule(b, 17) == 0x00000000 && Schedule(b, 18) == 0x00000030
    ensures Schedule(b, 19) == 0x85898E01 && Schedule(b, 20) == 0x00000000 && Schedule(b, 21) == 0x00000060
    ensures Schedule(b, 22) == 0x0B131C03 && Schedule(b, 23) == 0x00000030 && Schedule(b, 24) == 0x85898EC1
    ensures Schedule(b, 25) == 0x16263806 && Schedule(b, 26) == 0x00000000 && Schedule(b, 27) == 0x00000180
    ensures Schedule(b, 28) == 0x2C4C700C && Schedule(b, 29) == 0x000000F0 && Schedule(b, 30) == 0x93AFB507
    ensures Schedule(b, 31) == 0x5898E048
  {
    AbcWords0(b);
    hide Schedule, AbcBlock;
    ScheduleIs(b, 16); ScheduleIs(b, 17); ScheduleIs(b, 18); ScheduleIs(b, 19);
    ScheduleIs(b, 20); ScheduleIs(b, 21); ScheduleIs(b, 22); ScheduleIs(b, 23);
    ScheduleIs(b, 24); ScheduleIs(b, 25); ScheduleIs(b, 26); ScheduleIs(b, 27);
    ScheduleIs(b, 28); ScheduleIs(b, 29); ScheduleIs(b, 30); ScheduleIs(b, 31);
  }

  lemma AbcWords2(b: seq<byte>)
    requires b == AbcBlock()
    ensures Schedule(b, 32) == 0x8E9A9202 && Schedule(b, 33) == 0x00000600 && Schedule(b, 34) == 0xB131C0F0
    ensures Schedule(b, 35) == 0x16263BC6 && Schedule(b, 36) == 0x4EBED41E && Schedule(b, 37) == 0x626380A1
    ensures Schedule(b, 38) == 0x16263806 && Schedule(b, 39) == 0x000018C0 && Schedule(b, 40) == 0xD2E138C4
    ensures Schedule(b, 41) == 0x00000F00 && Schedule(b, 42) == 0x3AFB5079 && Schedule(b, 43) == 0x898E04E5
    ensures Schedule(b, 44) == 0xE2BA3C2B && Schedule(b, 45) == 0x000060C0 && Schedule(b, 46) == 0x053A37CD
    ensures Schedule(b, 47) == 0x74458547
  {
    AbcWords1(b);
    hide Schedule, AbcBlock;
    ScheduleIs(b, 32); ScheduleIs(b, 33); ScheduleIs(b, 34); ScheduleIs(b, 35);
    ScheduleIs(b, 36); ScheduleIs(b, 37); ScheduleIs(b, 38); ScheduleIs(b, 39);
    ScheduleIs(b, 40); ScheduleIs(b, 41); ScheduleIs(b, 42); ScheduleIs(b, 43);
    ScheduleIs(b, 44); ScheduleIs(b, 45); ScheduleIs(b, 46); ScheduleIs(b, 47);
  }

  lemma AbcWords3(b: seq<byte>)
    requires b == AbcBlock()
    ensures Schedule(b, 48) == 0xDA9415ED && Schedule(b, 49) == 0x26380A16 && Schedule(b, 50) == 0x626383A1
    ensures Schedule(b, 51) == 0x4EBF54DE && Schedule(b, 52) == 0x3835B44B && Schedule(b, 53) == 0x0000F600
    ensures Schedule(b, 54) == 0x1E84C7A3 && Schedule(b, 55) == 0x98E04D98 && Schedule(b, 56) == 0x651D16A0
    ensures Schedule(b, 57) == 0x62658CA1 && Schedule(b, 58) == 0x458544D6 && Schedule(b, 59) == 0x44584CB7
    ensures Schedule(b, 60) == 0x7BA06619 && Schedule(b, 61) == 0x6380AEA2 && Schedule(b, 62) == 0x0AE55269
    ensures Schedule(b, 63) == 0x627B49A1
  {
    AbcWords2(b);
    hide Schedule, AbcBlock;
    ScheduleIs(b, 48); ScheduleIs(b, 49); ScheduleIs(b, 50); ScheduleIs(b, 51);
    ScheduleIs(b, 52); ScheduleIs(b, 53); ScheduleIs(b, 54); ScheduleIs(b, 55);
    ScheduleIs(b, 56); ScheduleIs(b, 57); ScheduleIs(b, 58); ScheduleIs(b, 59);
    ScheduleIs(b, 60); ScheduleIs(b, 61); ScheduleIs(b, 62); ScheduleIs(b, 63);
  }

  lemma AbcWords4(b: seq<byte>)
    requires b == AbcBlock()
    ensures Schedule(b, 64) == 0x7CD45C9D && Schedule(b, 65) == 0x000F0000 && Schedule(b, 66) == 0xFB50753A
    ensures Schedule(b, 67) == 0xEC6765E8 && Schedule(b, 68) == 0xBA3C2BE2 && Schedule(b, 69) == 0x0060C000
    ensures Schedule(b, 70) == 0x3A37CD05 && Schedule(b, 71) == 0x458546F4 && Schedule(b, 72) == 0xB8599DD6
    ensures Schedule(b, 73) == 0x380A1A26 && Schedule(b, 74) == 0x01E02203 && Schedule(b, 75) == 0xE7CC3456
    ensures Schedule(b, 76) == 0xE6E60B69 && Schedule(b, 77) == 0x00F60A00 && Schedule(b, 78) == 0x5795EF4F
    ensures Schedule(b, 79) == 0x822E0879
  {
    AbcWords3(b);
    hide Schedule, AbcBlock;
    ScheduleIs(b, 64); ScheduleIs(b, 65); ScheduleIs(b, 66); ScheduleIs(b, 67);
    ScheduleIs(b, 68); ScheduleIs(b, 69); ScheduleIs(b, 70); ScheduleIs(b, 71);
    ScheduleIs(b, 72); ScheduleIs(b, 73); ScheduleIs(b, 74); ScheduleIs(b, 75);
    ScheduleIs(b, 76); ScheduleIs(b, 77); ScheduleIs(b, 78); ScheduleIs(b, 79);
  }

  lemma AbcRounds0(b: seq<byte>)
    requires |b| == 64 && Rounds(b, INITIAL, 0) == Sum(0x67452301, 0xEFCDAB89, 0x98BADCFE, 0x10325476, 0xC3D2E1F0)
    requires Schedule(b, 0) == 0x61626380 && Schedule(b, 1) == 0x00000000 && Schedule(b, 2) == 0x00000000
    requires Schedule(b, 3) == 0x00000000 && Schedule(b, 4) == 0x00000000 && Schedule(b, 5) == 0x00000000
    requires Schedule(b, 6) == 0x00000000 && Schedule(b, 7) == 0x00000000 && Schedule(b, 8) == 0x00000000
    requires Schedule(b, 9) == 0x00000000
    ensures Rounds(b, INITIAL, 10) == Sum(0x8351F929, 0x4B6AE328, 0x27A301F5, 0x664F8C30, 0x0FF1F290)
  {
    hide Schedule, Rounds;
    Round(b, INITIAL, 0, 0x61626380, 0x67452301, 0xEFCDAB89, 0x98BADCFE, 0x10325476, 0xC3D2E1F0, 0x0116FC33, 0x7BF36AE2);
    Round(b, INITIAL, 1, 0x00000000, 0x0116FC33, 0x67452301, 0x7BF36AE2, 0x98BADCFE, 0x10325476, 0x8990536D, 0x59D148C0);
    Round(b, INITIAL, 2, 0x00000000, 0x8990536D, 0x0116FC33, 0x59D148C0, 0x7BF36AE2, 0x98BADCFE, 0xA1390F08, 0xC045BF0C);
    Round(b, INITIAL, 3, 0x00000000, 0xA1390F08, 0x8990536D, 0xC045BF0C, 0x59D148C0, 0x7BF36AE2, 0xCDD8E11B, 0x626414DB);
    Round(b, INITIAL, 4, 0x00000000, 0xCDD8E11B, 0xA1390F08, 0x626414DB, 0xC045BF0C, 0x59D148C0, 0xCFD499DE, 0x284E43C2);
    Round(b, INITIAL, 5, 0x00000000, 0xCFD499DE, 0xCDD8E11B, 0x284E43C2, 0x626414DB, 0xC045BF0C, 0x3FC7CA40, 0xF3763846);
    Round(b, INITIAL, 6, 0x00000000, 0x3FC7CA40, 0xCFD499DE, 0xF3763846, 0x284E43C2, 0x626414DB, 0x993E30C1, 0xB3F52677);
    Round(b, INITIAL, 7, 0x00000000, 0x993E30C1, 0x3FC7CA40, 0xB3F52677, 0xF3763846, 0x284E43C2, 0x9E8C07D4, 0x0FF1F290);
    Round(b, INITIAL, 8, 0x00000000, 0x9E8C07D4, 0x993E30C1, 0x0FF1F290, 0xB3F52677, 0xF3763846, 0x4B6AE328, 0x664F8C30);
    Round(b, INITIAL, 9, 0x00000000, 0x4B6AE328, 0x9E8C07D4, 0x664F8C30, 0x0FF1F290, 0xB3F52677, 0x8351F929, 0x27A301F5);
  }

  lemma AbcRounds1(b: seq<byte>)
    requires |b| == 64 && Rounds(b, INITIAL, 10) == Sum(0x8351F929, 0x4B6AE328, 0x27A301F5, 0x664F8C30, 0x0FF1F290)
    requires Schedule(b, 10) == 0x00000000 && Schedule(b, 11) == 0x00000000 && Schedule(b, 12) == 0x00000000
    requires Schedule(b, 13) == 0x00000000 && Schedule(b, 14) == 0x00000000 && Schedule(b, 15) == 0x00000018
    requires Schedule(b, 16) == 0xC2C4C700 && Schedule(b, 17) == 0x00000000 && Schedule(b, 18) == 0x00000030
    requires Schedule(b, 19) == 0x85898E01
    ensures Rounds(b, INITIAL, 20) == Sum(0xFD9E1D7D, 0xDC64901D, 0x20AA99CA, 0xD3A49608, 0xC82F758B)
  {
    hide Schedule, Rounds;
    Round(b, INITIAL, 10, 0x00000000, 0x8351F929, 0x4B6AE328, 0x27A301F5, 0x664F8C30, 0x0FF1F290, 0xFBDA9E89, 0x12DAB8CA);
    Round(b, INITIAL, 11, 0x00000000, 0xFBDA9E89, 0x8351F929, 0x12DAB8CA, 0x27A301F5, 0x664F8C30, 0x63188FE4, 0x60D47E4A);
    Round(b, INITIAL, 12, 0x00000000, 0x63188FE4, 0xFBDA9E89, 0x60D47E4A, 0x12DAB8CA, 0x27A301F5, 0x4607B664, 0x7EF6A7A2);
    Round(b, INITIAL, 13, 0x00000000, 0x4607B664, 0x63188FE4, 0x7EF6A7A2, 0x60D47E4A, 0x12DAB8CA, 0x9128F695, 0x18C623F9);
    Round(b, INITIAL, 14, 0x00000000, 0x9128F695, 0x4607B664, 0x18C623F9, 0x7EF6A7A2, 0x60D47E4A, 0x196BEE77, 0x1181ED99);
    Round(b, INITIAL, 15, 0x00000018, 0x196BEE77, 0x9128F695, 0x1181ED99, 0x18C623F9, 0x7EF6A7A2, 0x20BDD62F, 0x644A3DA5);
    Round(b, INITIAL, 16, 0xC2C4C700, 0x20BDD62F, 0x196BEE77, 0x644A3DA5, 0x1181ED99, 0x18C623F9, 0x4E925823, 0xC65AFB9D);
    Round(b, INITIAL, 17, 0x00000000, 0x4E925823, 0x20BDD62F, 0xC65AFB9D, 0x644A3DA5, 0x1181ED99, 0x82AA6728, 0xC82F758B);
    Round(b, INITIAL, 18, 0x00000030, 0x82AA6728, 0x4E925823, 0xC82F758B, 0xC65AFB9D, 0x644A3DA5, 0xDC64901D, 0xD3A49608);
    Round(b, INITIAL, 19, 0x85898E01, 0xDC64901D, 0x82AA6728, 0xD3A49608, 0xC82F758B, 0xC65AFB9D, 0xFD9E1D7D, 0x20AA99CA);
  }

  lemma AbcRounds2(b: seq<byte>)
    requires |b| == 64 && Rounds(b, INITIAL, 20) == Sum(0xFD9E1D7D, 0xDC64901D, 0x20AA99CA, 0xD3A49608, 0xC82F758B)
    requires Schedule(b, 20) == 0x00000000 && Schedule(b, 21) == 0x00000060 && Schedule(b, 22) == 0x0B131C03
    requires Schedule(b, 23) == 0x00000030 && Schedule(b, 24) == 0x85898EC1 && Schedule(b, 25) == 0x16263806
    requires Schedule(b, 26) == 0x00000000 && Schedule(b, 27) == 0x00000180 && Schedule(b, 28) == 0x2C4C700C
    requires Schedule(b, 29) == 0x000000F0
    ensures Rounds(b, INITIAL, 30) == Sum(0xC5FBAF5D, 0x8370B52E, 0xD2AA1365, 0x6F8D7EF5, 0x12104EE9)
  {
    hide Schedule, Rounds;
    Round(b, INITIAL, 20, 0x00000000, 0xFD9E1D7D, 0xDC64901D, 0x20AA99CA, 0xD3A49608, 0xC82F758B, 0x1A37B0CA, 0x77192407);
    Round(b, INITIAL, 21, 0x00000060, 0x1A37B0CA, 0xFD9E1D7D, 0x77192407, 0x20AA99CA, 0xD3A49608, 0x33A23BFC, 0x7F67875F);
    Round(b, INITIAL, 22, 0x0B131C03, 0x33A23BFC, 0x1A37B0CA, 0x7F67875F, 0x77192407, 0x20AA99CA, 0x21283486, 0x868DEC32);
    Round(b, INITIAL, 23, 0x00000030, 0x21283486, 0x33A23BFC, 0x868DEC32, 0x7F67875F, 0x77192407, 0xD541F12D, 0x0CE88EFF);
    Round(b, INITIAL, 24, 0x85898EC1, 0xD541F12D, 0x21283486, 0x0CE88EFF, 0x868DEC32, 0x7F67875F, 0xC7567DC6, 0x884A0D21);
    Round(b, INITIAL, 25, 0x16263806, 0xC7567DC6, 0xD541F12D, 0x884A0D21, 0x0CE88EFF, 0x868DEC32, 0x48413BA4, 0x75507C4B);
    Round(b, INITIAL, 26, 0x00000000, 0x48413BA4, 0xC7567DC6, 0x75507C4B, 0x884A0D21, 0x0CE88EFF, 0xBE35FBD5, 0xB1D59F71);
    Round(b, INITIAL, 27, 0x00000180, 0xBE35FBD5, 0x48413BA4, 0xB1D59F71, 0x75507C4B, 0x884A0D21, 0x4AA84D97, 0x12104EE9);
    Round(b, INITIAL, 28, 0x2C4C700C, 0x4AA84D97, 0xBE35FBD5, 0x12104EE9, 0xB1D59F71, 0x75507C4B, 0x8370B52E, 0x6F8D7EF5);
    Round(b, INITIAL, 29, 0x000000F0, 0x8370B52E, 0x4AA84D97, 0x6F8D7EF5, 0x12104EE9, 0xB1D59F71, 0xC5FBAF5D, 0xD2AA1365);
  }

  lemma AbcRounds3(b: seq<byte>)
    requires |b| == 64 && Rounds(b, INITIAL, 30) == Sum(0xC5FBAF5D, 0x8370B52E, 0xD2AA1365, 0x6F8D7EF5, 0x12104EE9)
    requires Schedule(b, 30) == 0x93AFB507 && Schedule(b, 31) == 0x5898E048 && Schedule(b, 32) == 0x8E9A9202
    requires Schedule(b, 33) == 0x00000600 && Schedule(b, 34) == 0xB131C0F0 && Schedule(b, 35) == 0x16263BC6
    requires Schedule(b, 36) == 0x4EBED41E && Schedule(b, 37) == 0x626380A1 && Schedule(b, 38) == 0x16263806
    requires Schedule(b, 39) == 0x000018C0
    ensures Rounds(b, INITIAL, 40) == Sum(0x32DE1CBA, 0x4C986405, 0xF718E5CF, 0x03D447F6, 0xF72EEC32)
  {
    hide Schedule, Rounds;
    Round(b, INITIAL, 30, 0x93AFB507, 0xC5FBAF5D, 0x8370B52E, 0xD2AA1365, 0x6F8D7EF5, 0x12104EE9, 0x1267B407, 0xA0DC2D4B);
    Round(b, INITIAL, 31, 0x5898E048, 0x1267B407, 0xC5FBAF5D, 0xA0DC2D4B, 0xD2AA1365, 0x6F8D7EF5, 0x3B845D33, 0x717EEBD7);
    Round(b, INITIAL, 32, 0x8E9A9202, 0x3B845D33, 0x1267B407, 0x717EEBD7, 0xA0DC2D4B, 0xD2AA1365, 0x046FAA0A, 0xC499ED01);
    Round(b, INITIAL, 33, 0x00000600, 0x046FAA0A, 0x3B845D33, 0xC499ED01, 0x717EEBD7, 0xA0DC2D4B, 0x2C0EBC11, 0xCEE1174C);
    Round(b, INITIAL, 34, 0xB131C0F0, 0x2C0EBC11, 0x046FAA0A, 0xCEE1174C, 0xC499ED01, 0x717EEBD7, 0x21796AD4, 0x811BEA82);
    Round(b, INITIAL, 35, 0x16263BC6, 0x21796AD4, 0x2C0EBC11, 0x811BEA82, 0xCEE1174C, 0xC499ED01, 0xDCBBB0CB, 0x4B03AF04);
    Round(b, INITIAL, 36, 0x4EBED41E, 0xDCBBB0CB, 0x21796AD4, 0x4B03AF04, 0x811BEA82, 0xCEE1174C, 0x0F511FD8, 0x085E5AB5);
    Round(b, INITIAL, 37, 0x626380A1, 0x0F511FD8, 0xDCBBB0CB, 0x085E5AB5, 0x4B03AF04, 0x811BEA82, 0xDC63973F, 0xF72EEC32);
    Round(b, INITIAL, 38, 0x16263806, 0xDC63973F, 0x0F511FD8, 0xF72EEC32, 0x085E5AB5, 0x4B03AF04, 0x4C986405, 0x03D447F6);
    Round(b, INITIAL, 39, 0x000018C0, 0x4C986405, 0xDC63973F, 0x03D447F6, 0xF72EEC32, 0x085E5AB5, 0x32DE1CBA, 0xF718E5CF);
  }

  lemma AbcRounds4(b: seq<byte>)
    requires |b| == 64 && Rounds(b, INITIAL, 40) == Sum(0x32DE1CBA, 0x4C986405, 0xF718E5CF, 0x03D447F6, 0xF72EEC32)
    requires Schedule(b, 40) == 0xD2E138C4 && Schedule(b, 41) == 0x00000F00 && Schedule(b, 42) == 0x3AFB5079
    requires Schedule(b, 43) == 0x898E04E5 && Schedule(b, 44) == 0xE2BA3C2B && Schedule(b, 45) == 0x000060C0
    requires Schedule(b, 46) == 0x053A37CD && Schedule(b, 47) == 0x74458547 && Schedule(b, 48) == 0xDA9415ED
    requires Schedule(b, 49) == 0x26380A16
    ensures Rounds(b, INITIAL, 50) == Sum(0x120731C5, 0xBAF39337, 0xAFAB40B2, 0x2806E11B, 0x8714787C)
  {
    hide Schedule, Rounds;
    Round(b, INITIAL, 40, 0xD2E138C4, 0x32DE1CBA, 0x4C986405, 0xF718E5CF, 0x03D447F6, 0xF72EEC32, 0xFC87DEDF, 0x53261901);
    Round(b, INITIAL, 41, 0x00000F00, 0xFC87DEDF, 0x32DE1CBA, 0x53261901, 0xF718E5CF, 0x03D447F6, 0x970A0D5C, 0x8CB7872E);
    Round(b, INITIAL, 42, 0x3AFB5079, 0x970A0D5C, 0xFC87DEDF, 0x8CB7872E, 0x53261901, 0xF718E5CF, 0x7F193DC5, 0xFF21F7B7);
    Round(b, INITIAL, 43, 0x898E04E5, 0x7F193DC5, 0x970A0D5C, 0xFF21F7B7, 0x8CB7872E, 0x53261901, 0xEE1B1AAF, 0x25C28357);
    Round(b, INITIAL, 44, 0xE2BA3C2B, 0xEE1B1AAF, 0x7F193DC5, 0x25C28357, 0xFF21F7B7, 0x8CB7872E, 0x40F28E09, 0x5FC64F71);
    Round(b, INITIAL, 45, 0x000060C0, 0x40F28E09, 0xEE1B1AAF, 0x5FC64F71, 0x25C28357, 0xFF21F7B7, 0x1C51E1F2, 0xFB86C6AB);
    Round(b, INITIAL, 46, 0x053A37CD, 0x1C51E1F2, 0x40F28E09, 0xFB86C6AB, 0x5FC64F71, 0x25C28357, 0xA01B846C, 0x503CA382);
    Round(b, INITIAL, 47, 0x74458547, 0xA01B846C, 0x1C51E1F2, 0x503CA382, 0xFB86C6AB, 0x5FC64F71, 0xBEAD02CA, 0x8714787C);
    Round(b, INITIAL, 48, 0xDA9415ED, 0xBEAD02CA, 0xA01B846C, 0x8714787C, 0x503CA382, 0xFB86C6AB, 0xBAF39337, 0x2806E11B);
    Round(b, INITIAL, 49, 0x26380A16, 0xBAF39337, 0xBEAD02CA, 0x2806E11B, 0x8714787C, 0x503CA382, 0x120731C5, 0xAFAB40B2);
  }

  lemma AbcRounds5(b: seq<byte>)
    requires |b| == 64 && Rounds(b, INITIAL, 50) == Sum(0x120731C5, 0xBAF39337, 0xAFAB40B2, 0x2806E11B, 0x8714787C)
    requires Schedule(b, 50) == 0x626383A1 && Schedule(b, 51) == 0x4EBF54DE && Schedule(b, 52) == 0x3835B44B
    requires Schedule(b, 53) == 0x0000F600 && Schedule(b, 54) == 0x1E84C7A3 && Schedule(b, 55) == 0x98E04D98
    requires Schedule(b, 56) == 0x651D16A0 && Schedule(b, 57) == 0x62658CA1 && Schedule(b, 58) == 0x458544D6
    requires Schedule(b, 59) == 0x44584CB7
    ensures Rounds(b, INITIAL, 60) == Sum(0x3F52DE5A, 0x09D785FD, 0x3498BFD4, 0xF211824F, 0xD79915AB)
  {
    hide Schedule, Rounds;
    Round(b, INITIAL, 50, 0x626383A1, 0x120731C5, 0xBAF39337, 0xAFAB40B2, 0x2806E11B, 0x8714787C, 0x641DB2CE, 0xEEBCE4CD);
    Round(b, INITIAL, 51, 0x4EBF54DE, 0x641DB2CE, 0x120731C5, 0xEEBCE4CD, 0xAFAB40B2, 0x2806E11B, 0x3847AD66, 0x4481CC71);
    Round(b, INITIAL, 52, 0x3835B44B, 0x3847AD66, 0x641DB2CE, 0x4481CC71, 0xEEBCE4CD, 0xAFAB40B2, 0xE490436D, 0x99076CB3);
    Round(b, INITIAL, 53, 0x0000F600, 0xE490436D, 0x3847AD66, 0x99076CB3, 0x4481CC71, 0xEEBCE4CD, 0x27E9F1D8, 0x8E11EB59);
    Round(b, INITIAL, 54, 0x1E84C7A3, 0x27E9F1D8, 0xE490436D, 0x8E11EB59, 0x99076CB3, 0x4481CC71, 0x7B71F76D, 0x792410DB);
    Round(b, INITIAL, 55, 0x98E04D98, 0x7B71F76D, 0x27E9F1D8, 0x792410DB, 0x8E11EB59, 0x99076CB3, 0x5E6456AF, 0x09FA7C76);
    Round(b, INITIAL, 56, 0x651D16A0, 0x5E6456AF, 0x7B71F76D, 0x09FA7C76, 0x792410DB, 0x8E11EB59, 0xC846093F, 0x5EDC7DDB);
    Round(b, INITIAL, 57, 0x62658CA1, 0xC846093F, 0x5E6456AF, 0x5EDC7DDB, 0x09FA7C76, 0x792410DB, 0xD262FF50, 0xD79915AB);
    Round(b, INITIAL, 58, 0x458544D6, 0xD262FF50, 0xC846093F, 0xD79915AB, 0x5EDC7DDB, 0x09FA7C76, 0x09D785FD, 0xF211824F);
    Round(b, INITIAL, 59, 0x44584CB7, 0x09D785FD, 0xD262FF50, 0xF211824F, 0xD79915AB, 0x5EDC7DDB, 0x3F52DE5A, 0x3498BFD4);
  }

  lemma AbcRounds6(b: seq<byte>)
    requires |b| == 64 && Rounds(b, INITIAL, 60) == Sum(0x3F52DE5A, 0x09D785FD, 0x3498BFD4, 0xF211824F, 0xD79915AB)
    requires Schedule(b, 60) == 0x7BA06619 && Schedule(b, 61) == 0x6380AEA2 && Schedule(b, 62) == 0x0AE55269
    requires Schedule(b, 63) == 0x627B49A1 && Schedule(b, 64) == 0x7CD45C9D && Schedule(b, 65) == 0x000F0000
    requires Schedule(b, 66) == 0xFB50753A && Schedule(b, 67) == 0xEC6765E8 && Schedule(b, 68) == 0xBA3C2BE2
    requires Schedule(b, 69) == 0x0060C000
    ensures Rounds(b, INITIAL, 70) == Sum(0x3F2588C2, 0x497093C0, 0xDE37534A, 0x030F7CAD, 0x4405957E)
  {
    hide Schedule, Rounds;
    Round(b, INITIAL, 60, 0x7BA06619, 0x3F52DE5A, 0x09D785FD, 0x3498BFD4, 0xF211824F, 0xD79915AB, 0xD756C147, 0x4275E17F);
    Round(b, INITIAL, 61, 0x6380AEA2, 0xD756C147, 0x3F52DE5A, 0x4275E17F, 0x3498BFD4, 0xF211824F, 0x548C9CB2, 0x8FD4B796);
    Round(b, INITIAL, 62, 0x0AE55269, 0x548C9CB2, 0xD756C147, 0x8FD4B796, 0x4275E17F, 0x3498BFD4, 0xB66C020B, 0xF5D5B051);
    Round(b, INITIAL, 63, 0x627B49A1, 0xB66C020B, 0x548C9CB2, 0xF5D5B051, 0x8FD4B796, 0x4275E17F, 0x6B61C9E1, 0x9523272C);
    Round(b, INITIAL, 64, 0x7CD45C9D, 0x6B61C9E1, 0xB66C020B, 0x9523272C, 0xF5D5B051, 0x8FD4B796, 0x19DFA7AC, 0xED9B0082);
    Round(b, INITIAL, 65, 0x000F0000, 0x19DFA7AC, 0x6B61C9E1, 0xED9B0082, 0x9523272C, 0xF5D5B051, 0x101655F9, 0x5AD87278);
    Round(b, INITIAL, 66, 0xFB50753A, 0x101655F9, 0x19DFA7AC, 0x5AD87278, 0xED9B0082, 0x9523272C, 0x0C3DF2B4, 0x0677E9EB);
    Round(b, INITIAL, 67, 0xEC6765E8, 0x0C3DF2B4, 0x101655F9, 0x0677E9EB, 0x5AD87278, 0xED9B0082, 0x78DD4D2B, 0x4405957E);
    Round(b, INITIAL, 68, 0xBA3C2BE2, 0x78DD4D2B, 0x0C3DF2B4, 0x4405957E, 0x0677E9EB, 0x5AD87278, 0x497093C0, 0x030F7CAD);
    Round(b, INITIAL, 69, 0x0060C000, 0x497093C0, 0x78DD4D2B, 0x030F7CAD, 0x4405957E, 0x0677E9EB, 0x3F2588C2, 0xDE37534A);
  }

  lemma AbcRounds7(b: seq<byte>)
    requires |b| == 64 && Rounds(b, INITIAL, 70) == Sum(0x3F2588C2, 0x497093C0, 0xDE37534A, 0x030F7CAD, 0x4405957E)
    requires Schedule(b, 70) == 0x3A37CD05 && Schedule(b, 71) == 0x458546F4 && Schedule(b, 72) == 0xB8599DD6
    requires Schedule(b, 73) == 0x380A1A26 && Schedule(b, 74) == 0x01E02203 && Schedule(b, 75) == 0xE7CC3456
    requires Schedule(b, 76) == 0xE6E60B69 && Schedule(b, 77) == 0x00F60A00 && Schedule(b, 78) == 0x5795EF4F
    requires Schedule(b, 79) == 0x822E0879
    ensures Rounds(b, INITIAL, 80) == Sum(0x42541B35, 0x5738D5E1, 0x21834873, 0x681E6DF6, 0xD8FDF6AD)
  {
    hide Schedule, Rounds;
    Round(b, INITIAL, 70, 0x3A37CD05, 0x3F2588C2, 0x497093C0, 0xDE37534A, 0x030F7CAD, 0x4405957E, 0xC199F8C7, 0x125C24F0);
    Round(b, INITIAL, 71, 0x458546F4, 0xC199F8C7, 0x3F2588C2, 0x125C24F0, 0xDE37534A, 0x030F7CAD, 0x39859DE7, 0x8FC96230);
    Round(b, INITIAL, 72, 0xB8599DD6, 0x39859DE7, 0xC199F8C7, 0x8FC96230, 0x125C24F0, 0xDE37534A, 0xEDB42DE4, 0xF0667E31);
    Round(b, INITIAL, 73, 0x380A1A26, 0xEDB42DE4, 0x39859DE7, 0xF0667E31, 0x8FC96230, 0x125C24F0, 0x11793F6F, 0xCE616779);
    Round(b, INITIAL, 74, 0x01E02203, 0x11793F6F, 0xEDB42DE4, 0xCE616779, 0xF0667E31, 0x8FC96230, 0x5EE76897, 0x3B6D0B79);
    Round(b, INITIAL, 75, 0xE7CC3456, 0x5EE76897, 0x11793F6F, 0x3B6D0B79, 0xCE616779, 0xF0667E31, 0x63F7DAB7, 0xC45E4FDB);
    Round(b, INITIAL, 76, 0xE6E60B69, 0x63F7DAB7, 0x5EE76897, 0xC45E4FDB, 0x3B6D0B79, 0xCE616779, 0xA079B7D9, 0xD7B9DA25);
    Round(b, INITIAL, 77, 0x00F60A00, 0xA079B7D9, 0x63F7DAB7, 0xD7B9DA25, 0xC45E4FDB, 0x3B6D0B79, 0x860D21CC, 0xD8FDF6AD);
    Round(b, INITIAL, 78, 0x5795EF4F, 0x860D21CC, 0xA079B7D9, 0xD8FDF6AD, 0xD7B9DA25, 0xC45E4FDB, 0x5738D5E1, 0x681E6DF6);
    Round(b, INITIAL, 79, 0x822E0879, 0x5738D5E1, 0x860D21CC, 0x681E6DF6, 0xD8FDF6AD, 0xD7B9DA25, 0x42541B35, 0x21834873);
  }

  lemma AbcCompressed(b: seq<byte>)
    requires b == AbcBlock()
    ensures Compress(INITIAL, b) == Sum(0xA9993E36, 0x4706816A, 0xBA3E2571, 0x7850C26C, 0x9CD0D89D)
  {
    assert Rounds(b, INITIAL, 0) == Sum(0x67452301, 0xEFCDAB89, 0x98BADCFE, 0x10325476, 0xC3D2E1F0);
    hide Rounds, Schedule, AbcBlock;
    AbcWords0(b);
    AbcWords1(b);
    AbcWords2(b);
    AbcWords3(b);
    AbcWords4(b);
    AbcRounds0(b);
    AbcRounds1(b);
    AbcRounds2(b);
    AbcRounds3(b);
    AbcRounds4(b);
    AbcRounds5(b);
    AbcRounds6(b);
    AbcRounds7(b);
  }

  lemma PaddedIs(m: seq<byte>, zeros: nat, length: seq<byte>)
    requires |m| < MAX_BYTES && zeros == (55 - |m|) % 64 && length == LengthBytes(|m|)
    ensures Padded(m) == m + ([0x80] + Zeros(zeros) + length)
  {
    hide LengthBytes, Zeros;
  }

  lemma AbcPadded()
    ensures Padded(ABC) == AbcBlock()
  {
    AbcLength();
    hide LengthBytes, Zeros, Padded;
    PaddedIs(ABC, 52, [0, 0, 0, 0, 0, 0] + [0, 24]);
  }

  lemma AbcLength()
    ensures LengthBytes(3) == [0, 0, 0, 0, 0, 0] + [0, 24]
  {
    SmallLength(3);
    Be16Is(24, 0, 24);
    hide LengthBytes, Be16;
  }

  /** The length of a short message. */
  lemma SmallLength(n: nat)
    requires n < 8192
    ensures LengthBytes(n) == [0, 0, 0, 0, 0, 0] + Be16(8 * n)
  {
    Be16Is(0, 0, 0);
    hide Be16;
    var m := 8 * n;
    assert m / 0x1_0000_0000 == 0 && m % 0x1_0000_0000 == m && m / 0x1_0000 == 0 && m % 0x1_0000 == m;
    assert Be32(0) == [0, 0, 0, 0];
    assert Be32(m) == [0, 0] + Be16(m);
  }

  /** Appendix A of FIPS 180-1. */
  lemma AbcDigest()
    ensures Digest(ABC) == Sum(0xA9993E36, 0x4706816A, 0xBA3E2571, 0x7850C26C, 0x9CD0D89D)
  {
    AbcPadded();
    AbcCompressed(AbcBlock());
    HashAppend([], AbcBlock());
    assert [] + AbcBlock() == AbcBlock();
    hide AbcBlock, Compress, Padded;
  }

  /** The bytes of that digest, in the order in which they are encoded. */
  lemma AbcDigestBytes()
    ensures Handshake.DigestBytes(Digest(ABC)) == [
      0xA9, 0x99, 0x3E, 0x36, 0x47, 0x06, 0x81, 0x6A, 0xBA, 0x3E,
      0x25, 0x71, 0x78, 0x50, 0xC2, 0x6C, 0x9C, 0xD0, 0xD8, 0x9D]
  {
    AbcDigest();
    hide Digest;
  }
}
