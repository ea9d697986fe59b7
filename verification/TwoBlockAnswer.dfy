/** The example of appendix B of FIPS PUB 180-1, whose padding takes a second block, computed line by line.
 */
module TwoBlockAnswer {
  import opened Bytes
  import opened Fips180
  import opened DigestTrace
  import Sha1

  // ---------------------------------------------------------------- the first block

  const One0 := L(0x61626364, 0x62636465, 0x63646566, 0x64656667,
                  0x2C4F6EAC, 0x5109913A, 0xBAFCED14, 0xC045BF05, 0x59D148C0)
  const One1 := L(0x65666768, 0x66676869, 0x6768696A, 0x68696A6B,
                  0x45833F0F, 0xDB04CB58, 0x65AE1462, 0xCCFD2B96, 0x0B13DBAB)
  const One2 := L(0x696A6B6C, 0x6A6B6C6D, 0x6B6C6D6E, 0x6C6D6E6F,
                  0xE19ECAA2, 0x8993EA77, 0x98D42BF6, 0xB15970D7, 0xD160CFC3)
  const One3 := L(0x6D6E6F70, 0x6E6F7071, 0x80000000, 0x00000000,
                  0x42637E39, 0xB2E7A8BE, 0x4CBE52A1, 0xA180D207, 0xB867B2A8)
  const One4 := L(0x0A063A3E, 0xD8DADCDF, 0xDADCDEC0, 0xC8D2B4BE,
                  0x6C445652, 0x944B1BD1, 0x509AE70D, 0x1AC1A012, 0x5098DF8E)
  const One5 := L(0x6F757B5B, 0x757B5967, 0x8DA16D70, 0xDAEEFABA,
                  0xFD224575, 0xE2B92DC4, 0xC254445D, 0x6560DB69, 0x9B111594)
  const One6 := L(0xFAF6CAB6, 0xA6FB675A, 0x0C604CC8, 0x604CC02C,
                  0xD526A644, 0x2972F7C7, 0x96850B06, 0xBBAE0B66, 0x7F48915D)
  const One7 := L(0x49C0E6E2, 0x2EE8CBBC, 0xCFD72EC4, 0x97E9810E,
                  0x52E31F60, 0xA9C84BEC, 0x816D15EC, 0x78448908, 0x3549A991)
  const One8 := L(0x0989CBE8, 0xF24843FE, 0x5C40D0BA, 0xA8D9CC3B,
                  0xAB7C32EE, 0xE9AC987C, 0x4C71D5AA, 0x16BCC90B, 0x14B8C7D8)
  const One9 := L(0xB2B9666E, 0xBA7B71B7, 0x20B28A72, 0xB28AF500,
                  0xADEB7478, 0x24957F22, 0x50FE1EBA, 0x564CFF26, 0xAADF0CBB)
  const One10 := L(0x8AC87842, 0x289ADDF4, 0x56D51F21, 0xD96B7FD2,
                  0x633E9561, 0xF9BCB8DE, 0x1E6F3EC2, 0x35C39404, 0x2B7ADD1E)
  const One11 := L(0x3868E778, 0xAB5E4848, 0x7F0E2118, 0xDE87A111,
                  0xC8A69090, 0xA2AD4F02, 0xB1BA8907, 0x26307A99, 0x58CFA558)
  const One12 := L(0xE8BE56B0, 0x1A0AE652, 0xCD5611C8, 0x46EF29DC,
                  0x8D2E76C8, 0x86E358BA, 0x1FA11BD6, 0x220D0580, 0x3229A424)
  const One13 := L(0x60D3DA6D, 0xDDF3BA6E, 0x2737F5E9, 0x4888A710,
                  0x776C3910, 0x36D1230A, 0x7B7AA56C, 0x33A24B84, 0x234B9DB2)
  const One14 := L(0xD2A1177B, 0x9999633B, 0xD6C69D03, 0xCCF6127B,
                  0x9EF775C3, 0xF03D3782, 0xEB029E53, 0xE9A06DC8, 0x1DDB0E44)
  const One15 := L(0x7C58FE6D, 0xFDD99C68, 0xF8E32074, 0xE0BA3C7D,
                  0x513F9CA0, 0x2BFAF7A8, 0x10203537, 0xCD8952C4, 0xE7BDDD70)
  const One16 := L(0x152198D6, 0x7B3F1982, 0x37F2D5B7, 0x8596323E,
                  0x6D17C9FD, 0x14A82DA9, 0x440DF4B5, 0x79625720, 0x144FE728)
  const One17 := L(0x810790D6, 0xBEA0A942, 0x11C7E1B1, 0x6158D101,
                  0x84065712, 0x112B96E3, 0xFF7DBBFF, 0x4B1EC1EF, 0x5B45F27F)
  const One18 := L(0x5FCD77D9, 0x7F2F12E6, 0xF868CFB1, 0xD6E997E9,
                  0x1A0E0E0A, 0x352D9F4B, 0x7148438D, 0x6AE27EDC, 0xA10195C4)
  const One19 := L(0xF526B852, 0xB7578DCC, 0x55D99DF4, 0x1FF69958,
                  0x8CE34517, 0xD3AD7C25, 0x6B4E1883, 0x74351CD2, 0x86838382)

  const OneFirst := List(One0) + List(One1) + List(One2) + List(One3)

  const OneRow0: seq<byte> :=
    [0x61, 0x62, 0x63, 0x64, 0x62, 0x63, 0x64, 0x65, 0x63, 0x64, 0x65, 0x66, 0x64, 0x65, 0x66, 0x67]
  const OneRow1: seq<byte> :=
    [0x65, 0x66, 0x67, 0x68, 0x66, 0x67, 0x68, 0x69, 0x67, 0x68, 0x69, 0x6A, 0x68, 0x69, 0x6A, 0x6B]
  const OneRow2: seq<byte> :=
    [0x69, 0x6A, 0x6B, 0x6C, 0x6A, 0x6B, 0x6C, 0x6D, 0x6B, 0x6C, 0x6D, 0x6E, 0x6C, 0x6D, 0x6E, 0x6F]
  const OneRow3: seq<byte> :=
    [0x6D, 0x6E, 0x6F, 0x70, 0x6E, 0x6F, 0x70, 0x71, 0x80, 0x00, 0x00, 0x00, 0x00, 0x00, 0x00, 0x00]

  lemma OneWords0()
    ensures WordOf(0x61, 0x62, 0x63, 0x64) == One0.a && WordOf(0x62, 0x63, 0x64, 0x65) == One0.b
    ensures WordOf(0x63, 0x64, 0x65, 0x66) == One0.c && WordOf(0x64, 0x65, 0x66, 0x67) == One0.d
  {
    assert (0x61 as bv32) == 0x61 && (0x62 as bv32) == 0x62 && (0x63 as bv32) == 0x63 && (0x64 as bv32) == 0x64;
    assert (0x65 as bv32) == 0x65 && (0x66 as bv32) == 0x66 && (0x67 as bv32) == 0x67;
  }

  lemma OneReads0(b: seq<byte>, w: seq<Word>)
    requires |b| == 64 && |w| == 0 && Sha1.Loaded(w, b, 0) && b[0..16] == OneRow0
    ensures Sha1.Loaded(w + List(One0), b, 4)
  {
    OneWords0();
    Octets16(b, 0, OneRow0);
    LoadsFour(b, w, 0, One0);
  }

  lemma OneWords1()
    ensures WordOf(0x65, 0x66, 0x67, 0x68) == One1.a && WordOf(0x66, 0x67, 0x68, 0x69) == One1.b
    ensures WordOf(0x67, 0x68, 0x69, 0x6A) == One1.c && WordOf(0x68, 0x69, 0x6A, 0x6B) == One1.d
  {
    assert (0x65 as bv32) == 0x65 && (0x66 as bv32) == 0x66 && (0x67 as bv32) == 0x67 && (0x68 as bv32) == 0x68;
    assert (0x69 as bv32) == 0x69 && (0x6A as bv32) == 0x6A && (0x6B as bv32) == 0x6B;
  }

  lemma OneReads1(b: seq<byte>, w: seq<Word>)
    requires |b| == 64 && |w| == 4 && Sha1.Loaded(w, b, 4) && b[16..32] == OneRow1
    ensures Sha1.Loaded(w + List(One1), b, 8)
  {
    OneWords1();
    Octets16(b, 16, OneRow1);
    LoadsFour(b, w, 4, One1);
  }

  lemma OneWords2()
    ensures WordOf(0x69, 0x6A, 0x6B, 0x6C) == One2.a && WordOf(0x6A, 0x6B, 0x6C, 0x6D) == One2.b
    ensures WordOf(0x6B, 0x6C, 0x6D, 0x6E) == One2.c && WordOf(0x6C, 0x6D, 0x6E, 0x6F) == One2.d
  {
    assert (0x69 as bv32) == 0x69 && (0x6A as bv32) == 0x6A && (0x6B as bv32) == 0x6B && (0x6C as bv32) == 0x6C;
    assert (0x6D as bv32) == 0x6D && (0x6E as bv32) == 0x6E && (0x6F as bv32) == 0x6F;
  }

  lemma OneReads2(b: seq<byte>, w: seq<Word>)
    requires |b| == 64 && |w| == 8 && Sha1.Loaded(w, b, 8) && b[32..48] == OneRow2
    ensures Sha1.Loaded(w + List(One2), b, 12)
  {
    OneWords2();
    Octets16(b, 32, OneRow2);
    LoadsFour(b, w, 8, One2);
  }

  lemma OneWords3()
    ensures WordOf(0x6D, 0x6E, 0x6F, 0x70) == One3.a && WordOf(0x6E, 0x6F, 0x70, 0x71) == One3.b
    ensures WordOf(0x80, 0x00, 0x00, 0x00) == One3.c && WordOf(0x00, 0x00, 0x00, 0x00) == One3.d
  {
    assert (0x00 as bv32) == 0x00 && (0x6D as bv32) == 0x6D && (0x6E as bv32) == 0x6E && (0x6F as bv32) == 0x6F;
    assert (0x70 as bv32) == 0x70 && (0x71 as bv32) == 0x71 && (0x80 as bv32) == 0x80;
  }

  lemma OneReads3(b: seq<byte>, w: seq<Word>)
    requires |b| == 64 && |w| == 12 && Sha1.Loaded(w, b, 12) && b[48..64] == OneRow3
    ensures Sha1.Loaded(w + List(One3), b, 16)
  {
    OneWords3();
    Octets16(b, 48, OneRow3);
    LoadsFour(b, w, 12, One3);
  }

  lemma OneLoaded(b: seq<byte>)
    requires b == OneRow0 + OneRow1 + OneRow2 + OneRow3
    ensures |b| == 64 && Sha1.Loaded(OneFirst, b, 16)
  {
    assert b[0..16] == OneRow0;
    OneReads0(b, []);
    assert [] + List(One0) == List(One0);
    assert b[16..32] == OneRow1;
    OneReads1(b, List(One0));
    assert b[32..48] == OneRow2;
    OneReads2(b, List(One0) + List(One1));
    assert b[48..64] == OneRow3;
    OneReads3(b, List(One0) + List(One1) + List(One2));
  }

  lemma OneLines0()
    ensures At(H0, OneFirst, 4, One0, One1, One2, One3)
  {
    LeadOne(H0, One0);
    LeadMore(H0, [One0], One0.r, One1);
    LeadMore(H0, [One0] + [One1], One1.r, One2);
    LeadMore(H0, [One0] + [One1] + [One2], One2.r, One3);
    First(H0, One0, One1, One2, One3);
  }

  lemma OneLines4()
    ensures At(H0, OneFirst, 8, One4, One5, One6, One7)
  {
    OneLines0();
    More(H0, OneFirst, 4, One0, One1, One2, One3, One4);
    More(H0, OneFirst, 5, One1, One2, One3, One4, One5);
    More(H0, OneFirst, 6, One2, One3, One4, One5, One6);
    More(H0, OneFirst, 7, One3, One4, One5, One6, One7);
  }

  lemma OneLines8()
    ensures At(H0, OneFirst, 12, One8, One9, One10, One11)
  {
    OneLines4();
    More(H0, OneFirst, 8, One4, One5, One6, One7, One8);
    More(H0, OneFirst, 9, One5, One6, One7, One8, One9);
    More(H0, OneFirst, 10, One6, One7, One8, One9, One10);
    More(H0, OneFirst, 11, One7, One8, One9, One10, One11);
  }

  lemma OneLines12()
    ensures At(H0, OneFirst, 16, One12, One13, One14, One15)
  {
    OneLines8();
    More(H0, OneFirst, 12, One8, One9, One10, One11, One12);
    More(H0, OneFirst, 13, One9, One10, One11, One12, One13);
    More(H0, OneFirst, 14, One10, One11, One12, One13, One14);
    More(H0, OneFirst, 15, One11, One12, One13, One14, One15);
  }

  lemma OneLines16()
    ensures At(H0, OneFirst, 20, One16, One17, One18, One19)
  {
    OneLines12();
    More(H0, OneFirst, 16, One12, One13, One14, One15, One16);
    More(H0, OneFirst, 17, One13, One14, One15, One16, One17);
    More(H0, OneFirst, 18, One14, One15, One16, One17, One18);
    More(H0, OneFirst, 19, One15, One16, One17, One18, One19);
  }

  lemma OneBlock(b: seq<byte>)
    requires b == OneRow0 + OneRow1 + OneRow2 + OneRow3
    ensures |b| == 64 && Compress(H0, b) ==
            Regs(Word(0xF4286818), Word(0xC37B27AE), Word(0x0408F581), Word(0x84677148), Word(0x4A566572))
  {
    OneLines16();
    OneLoaded(b);
    Last(H0, OneFirst, b, One16, One17, One18, One19);
  }

  const Half := Regs(Word(0xF4286818), Word(0xC37B27AE), Word(0x0408F581), Word(0x84677148), Word(0x4A566572))

  // ---------------------------------------------------------------- the second block

  const Two0 := L(0x00000000, 0x00000000, 0x00000000, 0x00000000,
                  0xEEF743C6, 0xC352BB05, 0xD34F7163, 0x4B7C95FA, 0x3D0A1A06)
  const Two1 := L(0x00000000, 0x00000000, 0x00000000, 0x00000000,
                  0xC6946813, 0xE7FA0377, 0x1510E457, 0xD078D09D, 0xBBBDD0F1)
  const Two2 := L(0x00000000, 0x00000000, 0x00000000, 0x00000000,
                  0x43A2792F, 0x6BA94F63, 0xAE14E2B2, 0x7F778778, 0xF1A51A04)
  const Two3 := L(0x00000000, 0x00000000, 0x00000000, 0x000001C0,
                  0xD9772360, 0x258B0BAA, 0x2898132A, 0xFFB35EEF, 0xD0E89E4B)
  const Two4 := L(0x00000000, 0x00000000, 0x00000380, 0x00000000,
                  0xD8992153, 0xC2EB709F, 0x2946D62F, 0x9541F6DB, 0x365DC8D8)
  const Two5 := L(0x00000000, 0x00000700, 0x00000000, 0x00000380,
                  0x8FBAA5B9, 0x9AD594B9, 0x7BA1C02F, 0xCDD20BD7, 0xF6264854)
  const Two6 := L(0x00000E00, 0x00000000, 0x00000000, 0x00001C00,
                  0x5C416DAF, 0x50BCE434, 0x7BB14148, 0xE23ED619, 0x63EEA96E)
  const Two7 := L(0x00000000, 0x00000D80, 0x00003800, 0x00000480,
                  0x8A4AF384, 0x17986223, 0x028BEC42, 0xC90A6F97, 0xD7105B6B)
  const Two8 := L(0x00000000, 0x00007000, 0x00000E00, 0x00003600,
                  0x696DA404, 0x295CC25B, 0xFC57C13C, 0xDAD8A664, 0x2292BCE1)
  const Two9 := L(0x0000E000, 0x00000E00, 0x00000000, 0x0001CE00,
                  0x03BB6310, 0x84E2A5F2, 0x21F56E03, 0xB3BD6B84, 0x1A5B6901)
  const Two10 := L(0x00000000, 0x0000D800, 0x00038000, 0x00004F00,
                  0xEC1D3D61, 0x28589152, 0x2FEC95DA, 0xF0B63DD7, 0x00EED8C4)
  const Two11 := L(0x00000000, 0x00070E00, 0x0000EE00, 0x00037500,
                  0x46F93B68, 0x7316056A, 0xB0F40CFA, 0xCF2BB5EB, 0x7B074F58)
  const Two12 := L(0x000E0000, 0x0000E000, 0x00003600, 0x001CEE00,
                  0x89FBD41D, 0x7E4672C0, 0x21435047, 0xB7239FC9, 0x11BE4EDA)
  const Two13 := L(0x00000000, 0x000DF000, 0x00380000, 0x0004C600,
                  0x6DA72E7F, 0x2BDBB8CB, 0x10C7596F, 0x05E5F88A, 0x627EF507)
  const Two14 := L(0x0000E000, 0x0070EE00, 0x000EE000, 0x00369E00,
                  0xA65818F7, 0x5B086C42, 0xB9E15956, 0xEA1256A6, 0xDB69CB9F)
  const Two15 := L(0x00E00000, 0x000ED600, 0x0000E000, 0x01CEA600,
                  0xD504902B, 0xF66D9BF4, 0x24D85327, 0xDEAAC406, 0xE996063D)
  const Two16 := L(0x00000000, 0x00D80000, 0x0380E000, 0x004F0000,
                  0xF6226BBF, 0x083E90C3, 0x62DA1E06, 0x982A7698, 0xF541240A)
  const Two17 := L(0x00000000, 0x070E0000, 0x00EE0000, 0x03751C00,
                  0xAE1B8E7B, 0x8B2C7573, 0x66277459, 0xDDB0158E, 0xFD889AEF)
  const Two18 := L(0x0E000000, 0x00E0E000, 0x00363800, 0x1CEE9000,
                  0x6BC02DFE, 0xD28D83AD, 0xC5BCEEAE, 0xB2861037, 0xEB86E39E)
  const Two19 := L(0x00000000, 0x0DF09000, 0x3800E000, 0x04C77400,
                  0x906FD62C, 0x58C0AAC0, 0xB6A55520, 0x74E9B89D, 0x9AF00B7F)

  const TwoFirst := List(Two0) + List(Two1) + List(Two2) + List(Two3)

  const TwoRow3: seq<byte> :=
    [0x00, 0x00, 0x00, 0x00, 0x00, 0x00, 0x00, 0x00, 0x00, 0x00, 0x00, 0x00, 0x00, 0x00, 0x01, 0xC0]

  lemma TwoWords3()
    ensures WordOf(0x00, 0x00, 0x00, 0x00) == Two3.a && WordOf(0x00, 0x00, 0x00, 0x00) == Two3.b
    ensures WordOf(0x00, 0x00, 0x00, 0x00) == Two3.c && WordOf(0x00, 0x00, 0x01, 0xC0) == Two3.d
  {
    assert (0x00 as bv32) == 0x00 && (0x01 as bv32) == 0x01 && (0xC0 as bv32) == 0xC0;
  }

  lemma TwoReads3(b: seq<byte>, w: seq<Word>)
    requires |b| == 64 && |w| == 12 && Sha1.Loaded(w, b, 12) && b[48..64] == TwoRow3
    ensures Sha1.Loaded(w + List(Two3), b, 16)
  {
    TwoWords3();
    Octets16(b, 48, TwoRow3);
    LoadsFour(b, w, 12, Two3);
  }

  lemma TwoLoaded(b: seq<byte>)
    requires b == ZEROS + ZEROS + ZEROS + TwoRow3
    ensures |b| == 64 && Sha1.Loaded(TwoFirst, b, 16)
  {
    assert b[0..16] == ZEROS;
    LoadsZeros(b, [], 0, Two0);
    assert [] + List(Two0) == List(Two0);
    assert b[16..32] == ZEROS;
    LoadsZeros(b, List(Two0), 4, Two1);
    assert b[32..48] == ZEROS;
    LoadsZeros(b, List(Two0) + List(Two1), 8, Two2);
    assert b[48..64] == TwoRow3;
    TwoReads3(b, List(Two0) + List(Two1) + List(Two2));
  }

  lemma TwoLines0()
    ensures At(Half, TwoFirst, 4, Two0, Two1, Two2, Two3)
  {
    LeadOne(Half, Two0);
    LeadMore(Half, [Two0], Two0.r, Two1);
    LeadMore(Half, [Two0] + [Two1], Two1.r, Two2);
    LeadMore(Half, [Two0] + [Two1] + [Two2], Two2.r, Two3);
    First(Half, Two0, Two1, Two2, Two3);
  }

  lemma TwoLines4()
    ensures At(Half, TwoFirst, 8, Two4, Two5, Two6, Two7)
  {
    TwoLines0();
    More(Half, TwoFirst, 4, Two0, Two1, Two2, Two3, Two4);
    More(Half, TwoFirst, 5, Two1, Two2, Two3, Two4, Two5);
    More(Half, TwoFirst, 6, Two2, Two3, Two4, Two5, Two6);
    More(Half, TwoFirst, 7, Two3, Two4, Two5, Two6, Two7);
  }

  lemma TwoLines8()
    ensures At(Half, TwoFirst, 12, Two8, Two9, Two10, Two11)
  {
    TwoLines4();
    More(Half, TwoFirst, 8, Two4, Two5, Two6, Two7, Two8);
    More(Half, TwoFirst, 9, Two5, Two6, Two7, Two8, Two9);
    More(Half, TwoFirst, 10, Two6, Two7, Two8, Two9, Two10);
    More(Half, TwoFirst, 11, Two7, Two8, Two9, Two10, Two11);
  }

  lemma TwoLines12()
    ensures At(Half, TwoFirst, 16, Two12, Two13, Two14, Two15)
  {
    TwoLines8();
    More(Half, TwoFirst, 12, Two8, Two9, Two10, Two11, Two12);
    More(Half, TwoFirst, 13, Two9, Two10, Two11, Two12, Two13);
    More(Half, TwoFirst, 14, Two10, Two11, Two12, Two13, Two14);
    More(Half, TwoFirst, 15, Two11, Two12, Two13, Two14, Two15);
  }

  lemma TwoLines16()
    ensures At(Half, TwoFirst, 20, Two16, Two17, Two18, Two19)
  {
    TwoLines12();
    More(Half, TwoFirst, 16, Two12, Two13, Two14, Two15, Two16);
    More(Half, TwoFirst, 17, Two13, Two14, Two15, Two16, Two17);
    More(Half, TwoFirst, 18, Two14, Two15, Two16, Two17, Two18);
    More(Half, TwoFirst, 19, Two15, Two16, Two17, Two18, Two19);
  }

  lemma TwoBlock(b: seq<byte>)
    requires b == ZEROS + ZEROS + ZEROS + TwoRow3
    ensures |b| == 64 && Compress(Half, b) ==
            Regs(Word(0x84983E44), Word(0x1C3BD26E), Word(0xBAAE4AA1), Word(0xF95129E5), Word(0xE54670F1))
  {
    TwoLines16();
    TwoLoaded(b);
    Last(Half, TwoFirst, b, Two16, Two17, Two18, Two19);
  }

  const REST: seq<byte> := [0x6D, 0x6E, 0x6F, 0x70, 0x6E, 0x6F, 0x70, 0x71]
  const TEXT := OneRow0 + OneRow1 + OneRow2 + REST

  lemma Padded()
    ensures TEXT + Padding(56, Octets(448, 8)) ==
            OneRow0 + OneRow1 + OneRow2 + OneRow3 + (ZEROS + ZEROS + ZEROS + TwoRow3)
  {
    assert Octets(448, 8) == [0, 0, 0, 0, 0, 0, 0x01, 0xC0];
    PadTwo(OneRow0 + OneRow1 + OneRow2, REST, OneRow3, TwoRow3, Octets(448, 8));
  }

  /** The digest of those 56 octets. */
  lemma TwoBlockDigest()
    ensures Digest(TEXT) ==
            Regs(Word(0x84983E44), Word(0x1C3BD26E), Word(0xBAAE4AA1), Word(0xF95129E5), Word(0xE54670F1))
  {
    var b, c := OneRow0 + OneRow1 + OneRow2 + OneRow3, ZEROS + ZEROS + ZEROS + TwoRow3;
    Padded();
    OneBlock(b);
    TwoBlock(c);
    AbsorbTwo(H0, b, c);
  }
}
