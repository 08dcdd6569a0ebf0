/** What FIPS 180-1 fixes, said without its constants' own names: the first example of Appendix A, the
    digest of abc, row by row, and where the constants come from. */
module Fips180Example {
  import opened Ids
  import opened Fips180
  import opened Sha1

  // ---- the constants

  /** The four bytes of a word, least significant first. */
  function FromLeast(w: Word): seq<Byte> {
    var s := Bytes4(WordNat(w));
    [s[3], s[2], s[1], s[0]]
  }

  /** Read from the least significant byte of each word on, the initial state counts the hexadecimal
      digits up, then down, then two by two. */
  lemma InitialState()
    ensures FromLeast(IV.a) + FromLeast(IV.b) == [0x01, 0x23, 0x45, 0x67, 0x89, 0xAB, 0xCD, 0xEF]
    ensures FromLeast(IV.c) + FromLeast(IV.d) == [0xFE, 0xDC, 0xBA, 0x98, 0x76, 0x54, 0x32, 0x10]
    ensures FromLeast(IV.e) == [0xF0, 0xE1, 0xD2, 0xC3]
  {
    assert WordNat(IV.a) == 0x67452301 && WordNat(IV.b) == 0xEFCDAB89;
    assert WordNat(IV.c) == 0x98BADCFE && WordNat(IV.d) == 0x10325476;
    assert WordNat(IV.e) == 0xC3D2E1F0;
    hide WordNat;
  }

  /** Which number's square root round t uses. */
  function Radicand(t: nat): nat {
    if t < 20 then 2 else if t < 40 then 3 else if t < 60 then 5 else 10
  }

  /** The constant of each round is 2^30 times the square root of 2, 3, 5 or 10, rounded down. */
  lemma ConstantsAreRoots(t: nat)
    ensures var k := WordNat(K(t));
            k * k <= Radicand(t) * 0x1000_0000_0000_0000 < (k + 1) * (k + 1)
  {
    if t < 20 {
      assert WordNat(K(t)) == 0x5A827999;
    } else if t < 40 {
      assert WordNat(K(t)) == 0x6ED9EBA1;
    } else if t < 60 {
      assert WordNat(K(t)) == 0x8F1BBCDC;
    } else {
      assert WordNat(K(t)) == 0xCA62C1D6;
    }
  }

  // ---- the example

  lemma Word(ws: seq<Word>, t: nat, x: Word)
    requires IsSchedule(ws) && 16 <= t < ROUNDS
    requires RotL1(ws[t - 3] ^ ws[t - 8] ^ ws[t - 14] ^ ws[t - 16]) == x
    ensures ws[t] == x
  {
    assert ws[t] == NextWord(ws, t);
  }

  /** The registers after round t. */
  lemma Row(ws: seq<Word>, st: seq<Five>, t: nat, s: Five)
    requires IsRun(ws, st) && t < ROUNDS && Round(t, st[t], ws[t]) == s
    ensures st[t + 1] == s
  {
    assert st[t + 1] == RoundAt(ws, st, t);
  }

  predicate Words0(ws: seq<Word>) {
    && |ws| == ROUNDS
    && ws[0] == 0x61626380 && ws[1] == 0x00000000 && ws[2] == 0x00000000 && ws[3] == 0x00000000
    && ws[4] == 0x00000000 && ws[5] == 0x00000000 && ws[6] == 0x00000000 && ws[7] == 0x00000000
    && ws[8] == 0x00000000 && ws[9] == 0x00000000 && ws[10] == 0x00000000 && ws[11] == 0x00000000
    && ws[12] == 0x00000000 && ws[13] == 0x00000000 && ws[14] == 0x00000000 && ws[15] == 0x00000018
  }

  predicate Words16(ws: seq<Word>) {
    && |ws| == ROUNDS
    && ws[16] == 0xC2C4C700 && ws[17] == 0x00000000 && ws[18] == 0x00000030 && ws[19] == 0x85898E01
    && ws[20] == 0x00000000 && ws[21] == 0x00000060 && ws[22] == 0x0B131C03 && ws[23] == 0x00000030
    && ws[24] == 0x85898EC1 && ws[25] == 0x16263806 && ws[26] == 0x00000000 && ws[27] == 0x00000180
    && ws[28] == 0x2C4C700C && ws[29] == 0x000000F0 && ws[30] == 0x93AFB507 && ws[31] == 0x5898E048
  }

  predicate Words32(ws: seq<Word>) {
    && |ws| == ROUNDS
    && ws[32] == 0x8E9A9202 && ws[33] == 0x00000600 && ws[34] == 0xB131C0F0 && ws[35] == 0x16263BC6
    && ws[36] == 0x4EBED41E && ws[37] == 0x626380A1 && ws[38] == 0x16263806 && ws[39] == 0x000018C0
    && ws[40] == 0xD2E138C4 && ws[41] == 0x00000F00 && ws[42] == 0x3AFB5079 && ws[43] == 0x898E04E5
    && ws[44] == 0xE2BA3C2B && ws[45] == 0x000060C0 && ws[46] == 0x053A37CD && ws[47] == 0x74458547
  }

  predicate Words48(ws: seq<Word>) {
    && |ws| == ROUNDS
    && ws[48] == 0xDA9415ED && ws[49] == 0x26380A16 && ws[50] == 0x626383A1 && ws[51] == 0x4EBF54DE
    && ws[52] == 0x3835B44B && ws[53] == 0x0000F600 && ws[54] == 0x1E84C7A3 && ws[55] == 0x98E04D98
    && ws[56] == 0x651D16A0 && ws[57] == 0x62658CA1 && ws[58] == 0x458544D6 && ws[59] == 0x44584CB7
    && ws[60] == 0x7BA06619 && ws[61] == 0x6380AEA2 && ws[62] == 0x0AE55269 && ws[63] == 0x627B49A1
  }

  predicate Words64(ws: seq<Word>) {
    && |ws| == ROUNDS
    && ws[64] == 0x7CD45C9D && ws[65] == 0x000F0000 && ws[66] == 0xFB50753A && ws[67] == 0xEC6765E8
    && ws[68] == 0xBA3C2BE2 && ws[69] == 0x0060C000 && ws[70] == 0x3A37CD05 && ws[71] == 0x458546F4
    && ws[72] == 0xB8599DD6 && ws[73] == 0x380A1A26 && ws[74] == 0x01E02203 && ws[75] == 0xE7CC3456
    && ws[76] == 0xE6E60B69 && ws[77] == 0x00F60A00 && ws[78] == 0x5795EF4F && ws[79] == 0x822E0879
  }

  lemma WordsFrom16(ws: seq<Word>)
    requires IsSchedule(ws) && Words0(ws)
    ensures Words16(ws)
  {
    Word(ws, 16, 0xC2C4C700);
    Word(ws, 17, 0x00000000);
    Word(ws, 18, 0x00000030);
    Word(ws, 19, 0x85898E01);
    Word(ws, 20, 0x00000000);
    Word(ws, 21, 0x00000060);
    Word(ws, 22, 0x0B131C03);
    Word(ws, 23, 0x00000030);
    Word(ws, 24, 0x85898EC1);
    Word(ws, 25, 0x16263806);
    Word(ws, 26, 0x00000000);
    Word(ws, 27, 0x00000180);
    Word(ws, 28, 0x2C4C700C);
    Word(ws, 29, 0x000000F0);
    Word(ws, 30, 0x93AFB507);
    Word(ws, 31, 0x5898E048);
  }

  lemma WordsFrom32(ws: seq<Word>)
    requires IsSchedule(ws) && Words16(ws)
    ensures Words32(ws)
  {
    Word(ws, 32, 0x8E9A9202);
    Word(ws, 33, 0x00000600);
    Word(ws, 34, 0xB131C0F0);
    Word(ws, 35, 0x16263BC6);
    Word(ws, 36, 0x4EBED41E);
    Word(ws, 37, 0x626380A1);
    Word(ws, 38, 0x16263806);
    Word(ws, 39, 0x000018C0);
    Word(ws, 40, 0xD2E138C4);
    Word(ws, 41, 0x00000F00);
    Word(ws, 42, 0x3AFB5079);
    Word(ws, 43, 0x898E04E5);
    Word(ws, 44, 0xE2BA3C2B);
    Word(ws, 45, 0x000060C0);
    Word(ws, 46, 0x053A37CD);
    Word(ws, 47, 0x74458547);
  }

  lemma WordsFrom48(ws: seq<Word>)
    requires IsSchedule(ws) && Words32(ws)
    ensures Words48(ws)
  {
    Word(ws, 48, 0xDA9415ED);
    Word(ws, 49, 0x26380A16);
    Word(ws, 50, 0x626383A1);
    Word(ws, 51, 0x4EBF54DE);
    Word(ws, 52, 0x3835B44B);
    Word(ws, 53, 0x0000F600);
    Word(ws, 54, 0x1E84C7A3);
    Word(ws, 55, 0x98E04D98);
    Word(ws, 56, 0x651D16A0);
    Word(ws, 57, 0x62658CA1);
    Word(ws, 58, 0x458544D6);
    Word(ws, 59, 0x44584CB7);
    Word(ws, 60, 0x7BA06619);
    Word(ws, 61, 0x6380AEA2);
    Word(ws, 62, 0x0AE55269);
    Word(ws, 63, 0x627B49A1);
  }

  lemma WordsFrom64(ws: seq<Word>)
    requires IsSchedule(ws) && Words48(ws)
    ensures Words64(ws)
  {
    Word(ws, 64, 0x7CD45C9D);
    Word(ws, 65, 0x000F0000);
    Word(ws, 66, 0xFB50753A);
    Word(ws, 67, 0xEC6765E8);
    Word(ws, 68, 0xBA3C2BE2);
    Word(ws, 69, 0x0060C000);
    Word(ws, 70, 0x3A37CD05);
    Word(ws, 71, 0x458546F4);
    Word(ws, 72, 0xB8599DD6);
    Word(ws, 73, 0x380A1A26);
    Word(ws, 74, 0x01E02203);
    Word(ws, 75, 0xE7CC3456);
    Word(ws, 76, 0xE6E60B69);
    Word(ws, 77, 0x00F60A00);
    Word(ws, 78, 0x5795EF4F);
    Word(ws, 79, 0x822E0879);
  }

  lemma Rows0(ws: seq<Word>, st: seq<Five>)
    requires IsRun(ws, st) && Words0(ws) && Words16(ws)
    requires st[0] == Five(0x67452301, 0xEFCDAB89, 0x98BADCFE, 0x10325476, 0xC3D2E1F0)
    ensures st[20] == Five(0xFD9E1D7D, 0xDC64901D, 0x20AA99CA, 0xD3A49608, 0xC82F758B)
  {
    Row(ws, st, 0, Five(0x0116FC33, 0x67452301, 0x7BF36AE2, 0x98BADCFE, 0x10325476));
    Row(ws, st, 1, Five(0x8990536D, 0x0116FC33, 0x59D148C0, 0x7BF36AE2, 0x98BADCFE));
    Row(ws, st, 2, Five(0xA1390F08, 0x8990536D, 0xC045BF0C, 0x59D148C0, 0x7BF36AE2));
    Row(ws, st, 3, Five(0xCDD8E11B, 0xA1390F08, 0x626414DB, 0xC045BF0C, 0x59D148C0));
    Row(ws, st, 4, Five(0xCFD499DE, 0xCDD8E11B, 0x284E43C2, 0x626414DB, 0xC045BF0C));
    Row(ws, st, 5, Five(0x3FC7CA40, 0xCFD499DE, 0xF3763846, 0x284E43C2, 0x626414DB));
    Row(ws, st, 6, Five(0x993E30C1, 0x3FC7CA40, 0xB3F52677, 0xF3763846, 0x284E43C2));
    Row(ws, st, 7, Five(0x9E8C07D4, 0x993E30C1, 0x0FF1F290, 0xB3F52677, 0xF3763846));
    Row(ws, st, 8, Five(0x4B6AE328, 0x9E8C07D4, 0x664F8C30, 0x0FF1F290, 0xB3F52677));
    Row(ws, st, 9, Five(0x8351F929, 0x4B6AE328, 0x27A301F5, 0x664F8C30, 0x0FF1F290));
    Row(ws, st, 10, Five(0xFBDA9E89, 0x8351F929, 0x12DAB8CA, 0x27A301F5, 0x664F8C30));
    Row(ws, st, 11, Five(0x63188FE4, 0xFBDA9E89, 0x60D47E4A, 0x12DAB8CA, 0x27A301F5));
    Row(ws, st, 12, Five(0x4607B664, 0x63188FE4, 0x7EF6A7A2, 0x60D47E4A, 0x12DAB8CA));
    Row(ws, st, 13, Five(0x9128F695, 0x4607B664, 0x18C623F9, 0x7EF6A7A2, 0x60D47E4A));
    Row(ws, st, 14, Five(0x196BEE77, 0x9128F695, 0x1181ED99, 0x18C623F9, 0x7EF6A7A2));
    Row(ws, st, 15, Five(0x20BDD62F, 0x196BEE77, 0x644A3DA5, 0x1181ED99, 0x18C623F9));
    Row(ws, st, 16, Five(0x4E925823, 0x20BDD62F, 0xC65AFB9D, 0x644A3DA5, 0x1181ED99));
    Row(ws, st, 17, Five(0x82AA6728, 0x4E925823, 0xC82F758B, 0xC65AFB9D, 0x644A3DA5));
    Row(ws, st, 18, Five(0xDC64901D, 0x82AA6728, 0xD3A49608, 0xC82F758B, 0xC65AFB9D));
    Row(ws, st, 19, Five(0xFD9E1D7D, 0xDC64901D, 0x20AA99CA, 0xD3A49608, 0xC82F758B));
  }

  lemma Rows20(ws: seq<Word>, st: seq<Five>)
    requires IsRun(ws, st) && Words16(ws) && Words32(ws)
    requires st[20] == Five(0xFD9E1D7D, 0xDC64901D, 0x20AA99CA, 0xD3A49608, 0xC82F758B)
    ensures st[40] == Five(0x32DE1CBA, 0x4C986405, 0xF718E5CF, 0x03D447F6, 0xF72EEC32)
  {
    Row(ws, st, 20, Five(0x1A37B0CA, 0xFD9E1D7D, 0x77192407, 0x20AA99CA, 0xD3A49608));
    Row(ws, st, 21, Five(0x33A23BFC, 0x1A37B0CA, 0x7F67875F, 0x77192407, 0x20AA99CA));
    Row(ws, st, 22, Five(0x21283486, 0x33A23BFC, 0x868DEC32, 0x7F67875F, 0x77192407));
    Row(ws, st, 23, Five(0xD541F12D, 0x21283486, 0x0CE88EFF, 0x868DEC32, 0x7F67875F));
    Row(ws, st, 24, Five(0xC7567DC6, 0xD541F12D, 0x884A0D21, 0x0CE88EFF, 0x868DEC32));
    Row(ws, st, 25, Five(0x48413BA4, 0xC7567DC6, 0x75507C4B, 0x884A0D21, 0x0CE88EFF));
    Row(ws, st, 26, Five(0xBE35FBD5, 0x48413BA4, 0xB1D59F71, 0x75507C4B, 0x884A0D21));
    Row(ws, st, 27, Five(0x4AA84D97, 0xBE35FBD5, 0x12104EE9, 0xB1D59F71, 0x75507C4B));
    Row(ws, st, 28, Five(0x8370B52E, 0x4AA84D97, 0x6F8D7EF5, 0x12104EE9, 0xB1D59F71));
    Row(ws, st, 29, Five(0xC5FBAF5D, 0x8370B52E, 0xD2AA1365, 0x6F8D7EF5, 0x12104EE9));
    Row(ws, st, 30, Five(0x1267B407, 0xC5FBAF5D, 0xA0DC2D4B, 0xD2AA1365, 0x6F8D7EF5));
    Row(ws, st, 31, Five(0x3B845D33, 0x1267B407, 0x717EEBD7, 0xA0DC2D4B, 0xD2AA1365));
    Row(ws, st, 32, Five(0x046FAA0A, 0x3B845D33, 0xC499ED01, 0x717EEBD7, 0xA0DC2D4B));
    Row(ws, st, 33, Five(0x2C0EBC11, 0x046FAA0A, 0xCEE1174C, 0xC499ED01, 0x717EEBD7));
    Row(ws, st, 34, Five(0x21796AD4, 0x2C0EBC11, 0x811BEA82, 0xCEE1174C, 0xC499ED01));
    Row(ws, st, 35, Five(0xDCBBB0CB, 0x21796AD4, 0x4B03AF04, 0x811BEA82, 0xCEE1174C));
    Row(ws, st, 36, Five(0x0F511FD8, 0xDCBBB0CB, 0x085E5AB5, 0x4B03AF04, 0x811BEA82));
    Row(ws, st, 37, Five(0xDC63973F, 0x0F511FD8, 0xF72EEC32, 0x085E5AB5, 0x4B03AF04));
    Row(ws, st, 38, Five(0x4C986405, 0xDC63973F, 0x03D447F6, 0xF72EEC32, 0x085E5AB5));
    Row(ws, st, 39, Five(0x32DE1CBA, 0x4C986405, 0xF718E5CF, 0x03D447F6, 0xF72EEC32));
  }

  lemma Rows40(ws: seq<Word>, st: seq<Five>)
    requires IsRun(ws, st) && Words32(ws) && Words48(ws)
    requires st[40] == Five(0x32DE1CBA, 0x4C986405, 0xF718E5CF, 0x03D447F6, 0xF72EEC32)
    ensures st[60] == Five(0x3F52DE5A, 0x09D785FD, 0x3498BFD4, 0xF211824F, 0xD79915AB)
  {
    Row(ws, st, 40, Five(0xFC87DEDF, 0x32DE1CBA, 0x53261901, 0xF718E5CF, 0x03D447F6));
    Row(ws, st, 41, Five(0x970A0D5C, 0xFC87DEDF, 0x8CB7872E, 0x53261901, 0xF718E5CF));
    Row(ws, st, 42, Five(0x7F193DC5, 0x970A0D5C, 0xFF21F7B7, 0x8CB7872E, 0x53261901));
    Row(ws, st, 43, Five(0xEE1B1AAF, 0x7F193DC5, 0x25C28357, 0xFF21F7B7, 0x8CB7872E));
    Row(ws, st, 44, Five(0x40F28E09, 0xEE1B1AAF, 0x5FC64F71, 0x25C28357, 0xFF21F7B7));
    Row(ws, st, 45, Five(0x1C51E1F2, 0x40F28E09, 0xFB86C6AB, 0x5FC64F71, 0x25C28357));
    Row(ws, st, 46, Five(0xA01B846C, 0x1C51E1F2, 0x503CA382, 0xFB86C6AB, 0x5FC64F71));
    Row(ws, st, 47, Five(0xBEAD02CA, 0xA01B846C, 0x8714787C, 0x503CA382, 0xFB86C6AB));
    Row(ws, st, 48, Five(0xBAF39337, 0xBEAD02CA, 0x2806E11B, 0x8714787C, 0x503CA382));
    Row(ws, st, 49, Five(0x120731C5, 0xBAF39337, 0xAFAB40B2, 0x2806E11B, 0x8714787C));
    Row(ws, st, 50, Five(0x641DB2CE, 0x120731C5, 0xEEBCE4CD, 0xAFAB40B2, 0x2806E11B));
    Row(ws, st, 51, Five(0x3847AD66, 0x641DB2CE, 0x4481CC71, 0xEEBCE4CD, 0xAFAB40B2));
    Row(ws, st, 52, Five(0xE490436D, 0x3847AD66, 0x99076CB3, 0x4481CC71, 0xEEBCE4CD));
    Row(ws, st, 53, Five(0x27E9F1D8, 0xE490436D, 0x8E11EB59, 0x99076CB3, 0x4481CC71));
    Row(ws, st, 54, Five(0x7B71F76D, 0x27E9F1D8, 0x792410DB, 0x8E11EB59, 0x99076CB3));
    Row(ws, st, 55, Five(0x5E6456AF, 0x7B71F76D, 0x09FA7C76, 0x792410DB, 0x8E11EB59));
    Row(ws, st, 56, Five(0xC846093F, 0x5E6456AF, 0x5EDC7DDB, 0x09FA7C76, 0x792410DB));
    Row(ws, st, 57, Five(0xD262FF50, 0xC846093F, 0xD79915AB, 0x5EDC7DDB, 0x09FA7C76));
    Row(ws, st, 58, Five(0x09D785FD, 0xD262FF50, 0xF211824F, 0xD79915AB, 0x5EDC7DDB));
    Row(ws, st, 59, Five(0x3F52DE5A, 0x09D785FD, 0x3498BFD4, 0xF211824F, 0xD79915AB));
  }

  lemma Rows60(ws: seq<Word>, st: seq<Five>)
    requires IsRun(ws, st) && Words48(ws) && Words64(ws)
    requires st[60] == Five(0x3F52DE5A, 0x09D785FD, 0x3498BFD4, 0xF211824F, 0xD79915AB)
    ensures st[80] == Five(0x42541B35, 0x5738D5E1, 0x21834873, 0x681E6DF6, 0xD8FDF6AD)
  {
    Row(ws, st, 60, Five(0xD756C147, 0x3F52DE5A, 0x4275E17F, 0x3498BFD4, 0xF211824F));
    Row(ws, st, 61, Five(0x548C9CB2, 0xD756C147, 0x8FD4B796, 0x4275E17F, 0x3498BFD4));
    Row(ws, st, 62, Five(0xB66C020B, 0x548C9CB2, 0xF5D5B051, 0x8FD4B796, 0x4275E17F));
    Row(ws, st, 63, Five(0x6B61C9E1, 0xB66C020B, 0x9523272C, 0xF5D5B051, 0x8FD4B796));
    Row(ws, st, 64, Five(0x19DFA7AC, 0x6B61C9E1, 0xED9B0082, 0x9523272C, 0xF5D5B051));
    Row(ws, st, 65, Five(0x101655F9, 0x19DFA7AC, 0x5AD87278, 0xED9B0082, 0x9523272C));
    Row(ws, st, 66, Five(0x0C3DF2B4, 0x101655F9, 0x0677E9EB, 0x5AD87278, 0xED9B0082));
    Row(ws, st, 67, Five(0x78DD4D2B, 0x0C3DF2B4, 0x4405957E, 0x0677E9EB, 0x5AD87278));
    Row(ws, st, 68, Five(0x497093C0, 0x78DD4D2B, 0x030F7CAD, 0x4405957E, 0x0677E9EB));
    Row(ws, st, 69, Five(0x3F2588C2, 0x497093C0, 0xDE37534A, 0x030F7CAD, 0x4405957E));
    Row(ws, st, 70, Five(0xC199F8C7, 0x3F2588C2, 0x125C24F0, 0xDE37534A, 0x030F7CAD));
    Row(ws, st, 71, Five(0x39859DE7, 0xC199F8C7, 0x8FC96230, 0x125C24F0, 0xDE37534A));
    Row(ws, st, 72, Five(0xEDB42DE4, 0x39859DE7, 0xF0667E31, 0x8FC96230, 0x125C24F0));
    Row(ws, st, 73, Five(0x11793F6F, 0xEDB42DE4, 0xCE616779, 0xF0667E31, 0x8FC96230));
    Row(ws, st, 74, Five(0x5EE76897, 0x11793F6F, 0x3B6D0B79, 0xCE616779, 0xF0667E31));
    Row(ws, st, 75, Five(0x63F7DAB7, 0x5EE76897, 0xC45E4FDB, 0x3B6D0B79, 0xCE616779));
    Row(ws, st, 76, Five(0xA079B7D9, 0x63F7DAB7, 0xD7B9DA25, 0xC45E4FDB, 0x3B6D0B79));
    Row(ws, st, 77, Five(0x860D21CC, 0xA079B7D9, 0xD8FDF6AD, 0xD7B9DA25, 0xC45E4FDB));
    Row(ws, st, 78, Five(0x5738D5E1, 0x860D21CC, 0x681E6DF6, 0xD8FDF6AD, 0xD7B9DA25));
    Row(ws, st, 79, Five(0x42541B35, 0x5738D5E1, 0x21834873, 0x681E6DF6, 0xD8FDF6AD));
  }

  /** The block of the example. */
  predicate AbcBlock(p: seq<Byte>) {
    && |p| == 64 && p[0] == 0x61 && p[1] == 0x62 && p[2] == 0x63 && p[3] == 0x80
    && (forall i :: 4 <= i < 63 ==> p[i] == 0) && p[63] == 24
  }

  lemma Padded(m: seq<Byte>)
    requires m == [0x61, 0x62, 0x63]
    ensures AbcBlock(PadAs(m, |m|))
  {
    hide Zeros;
    var z := Zeros(52);
    LengthBytes();
    assert forall i :: 0 <= i < 52 ==> z[i] == 0 by { AllZero(52); }
    assert PadAs(m, |m|) == m + [0x80] + z + [0, 0, 0, 0, 0, 0, 0, 24];
  }

  lemma AllZero(n: nat)
    ensures forall i :: 0 <= i < n ==> Zeros(n)[i] == 0
  {
  }

  lemma LengthBytes()
    ensures Bytes8(24) == [0, 0, 0, 0, 0, 0, 0, 24]
  {
  }

  lemma BlockWords(p: seq<Byte>)
    requires AbcBlock(p)
    ensures BlockWord(p, 0) == 0x61626380 && BlockWord(p, 15) == 0x18
    ensures forall t: nat :: 1 <= t < 15 ==> BlockWord(p, t) == 0
  {
    hide WordOf;
    FourBytes(p, 0);
    FourBytes(p, 60);
    forall t: nat | 1 <= t < 15
      ensures BlockWord(p, t) == 0
    {
      FourBytes(p, 4 * t);
    }
  }

  lemma FourBytes(p: seq<Byte>, i: nat)
    requires i + 4 <= |p|
    ensures p[i] == 0x61 && p[i + 1] == 0x62 && p[i + 2] == 0x63 && p[i + 3] == 0x80 ==> WordOf(p, i) == 0x61626380
    ensures p[i] == 0 && p[i + 1] == 0 && p[i + 2] == 0 && p[i + 3] == 0 ==> WordOf(p, i) == 0
    ensures p[i] == 0 && p[i + 1] == 0 && p[i + 2] == 0 && p[i + 3] == 24 ==> WordOf(p, i) == 24
  {
  }

  lemma Table(p: seq<Byte>)
    requires AbcBlock(p)
    ensures Compress(IV, p) == Five(0xA9993E36, 0x4706816A, 0xBA3E2571, 0x7850C26C, 0x9CD0D89D)
  {
    hide BlockWord, NextWord, Round;
    var ws := Schedule(p, ROUNDS);
    ScheduleIsSchedule(p);
    BlockWords(p);
    assert Words0(ws);
    WordsFrom16(ws);
    WordsFrom32(ws);
    WordsFrom48(ws);
    WordsFrom64(ws);
    RoundsIsRun(ws, IV);
    var st := Rounds(ws, IV, ROUNDS);
    Rows0(ws, st);
    Rows20(ws, st);
    Rows40(ws, st);
    Rows60(ws, st);
  }

  /** The digest of abc. */
  lemma DigestOfAbc()
    ensures Hash([0x61, 0x62, 0x63])
         == [0xA9, 0x99, 0x3E, 0x36, 0x47, 0x06, 0x81, 0x6A, 0xBA, 0x3E,
             0x25, 0x71, 0x78, 0x50, 0xC2, 0x6C, 0x9C, 0xD0, 0xD8, 0x9D]
  {
    var m: seq<Byte> := [0x61, 0x62, 0x63];
    var p := PadAs(m, |m|);
    Padded(m);
    Table(p);
    assert p[64 * 0..64 * 1] == p;
    assert Fold(p, 0) == IV;
    assert Fold(p, |p| / 64) == Five(0xA9993E36, 0x4706816A, 0xBA3E2571, 0x7850C26C, 0x9CD0D89D);
    DigestWords();
  }

  lemma DigestOf(s: Five, a: nat, b: nat, c: nat, d: nat, e: nat)
    requires WordNat(s.a) == a && WordNat(s.b) == b && WordNat(s.c) == c && WordNat(s.d) == d && WordNat(s.e) == e
    ensures Digest(s) == Bytes4(a) + Bytes4(b) + Bytes4(c) + Bytes4(d) + Bytes4(e)
  {
    hide WordNat, Bytes4;
  }

  lemma DigestWords()
    ensures Digest(Five(0xA9993E36, 0x4706816A, 0xBA3E2571, 0x7850C26C, 0x9CD0D89D))
         == [0xA9, 0x99, 0x3E, 0x36, 0x47, 0x06, 0x81, 0x6A, 0xBA, 0x3E,
             0x25, 0x71, 0x78, 0x50, 0xC2, 0x6C, 0x9C, 0xD0, 0xD8, 0x9D]
  {
    var s := Five(0xA9993E36, 0x4706816A, 0xBA3E2571, 0x7850C26C, 0x9CD0D89D);
    assert WordNat(s.a) == 0xA9993E36 && WordNat(s.b) == 0x4706816A && WordNat(s.c) == 0xBA3E2571
        && WordNat(s.d) == 0x7850C26C && WordNat(s.e) == 0x9CD0D89D;
    hide Digest, WordNat, Bytes4;
    DigestOf(s, 0xA9993E36, 0x4706816A, 0xBA3E2571, 0x7850C26C, 0x9CD0D89D);
    FourOf(0xA9993E36, 0xA9, 0x99, 0x3E, 0x36);
    FourOf(0x4706816A, 0x47, 0x06, 0x81, 0x6A);
    FourOf(0xBA3E2571, 0xBA, 0x3E, 0x25, 0x71);
    FourOf(0x7850C26C, 0x78, 0x50, 0xC2, 0x6C);
    FourOf(0x9CD0D89D, 0x9C, 0xD0, 0xD8, 0x9D);
  }

  lemma FourOf(n: nat, a: Byte, b: Byte, c: Byte, d: Byte)
    requires n == a * 0x1000000 + b * 0x10000 + c * 0x100 + d < U32
    ensures Bytes4(n) == [a, b, c, d]
  {
    assert n / 0x10000 == a * 0x100 + b && n / 0x100 == a * 0x10000 + b * 0x100 + c;
  }
}
