/** The digest in the example in section 1.3 of RFC 6455, computed line by line.
 */
module HandshakeAnswer {
  import opened Bytes
  import opened Fips180
  import opened DigestTrace
  import Sha1

  // ---------------------------------------------------------------- the first block

  const Key0 := L(0x6447686C, 0x49484E68, 0x62584273, 0x5A534275,
                  0x53E039AC, 0xBE90EE8F, 0x4BDE4FD5, 0xC0FF0047, 0x59D148C0)
  const Key1 := L(0x6232356A, 0x5A513D3D, 0x32353845, 0x41464135,
                  0x2E0CE601, 0x73553E84, 0x5CC82E5A, 0xB7631F04, 0x14F80E6B)
  const Key2 := L(0x2D453931, 0x342D3437, 0x44412D39, 0x3543412D,
                  0x34CEB986, 0x5FF4238C, 0x7EAB499D, 0x8CAFAC16, 0x4B833980)
  const Key3 := L(0x43354142, 0x30444338, 0x35423131, 0x80000000,
                  0xA004C468, 0xE922CC9D, 0xAB86825B, 0xD86F6CAF, 0x8D33AE61)
  const Key4 := L(0x363CA02C, 0x24E81236, 0x8856B441, 0x06FB3C92,
                  0x091AB97C, 0x8DC510B6, 0xDFAECA5A, 0x75F6BD5D, 0x2801311A)
  const Key5 := L(0x6FB4BCB6, 0x460B16E3, 0x599219AE, 0x35BF9369,
                  0x250E26EF, 0xBEAFD554, 0xB44BC2D5, 0xD4611C28, 0x0246AE5F)
  const Key6 := L(0x3267458E, 0xF828FD04, 0x753A96A7, 0x6336F612,
                  0x571F7D82, 0xEF012F20, 0x1D22CE68, 0xC8F47246, 0xC94389BB)
  const Key7 := L(0xC3D66383, 0x06EB86F9, 0x73B4FD42, 0xA503C5B8,
                  0xA6680A1F, 0xB7DABC8B, 0x4206D8F9, 0xC6AEC70D, 0x95C7DF60)
  const Key8 := L(0x15CDAE35, 0x531E5DC5, 0x6FB6B7D0, 0x6C16E4AC,
                  0x9DE793C8, 0x149BB4D3, 0xBBAAE8D6, 0x46B8D82A, 0xE99A0287)
  const Key9 := L(0x4DDD36BD, 0x35D36946, 0xE8AE8B9C, 0x4A933AD0,
                  0x2BA2C83E, 0xD0869081, 0x1A1D8209, 0xD3334889, 0x2779E4F2)
  const Key10 := L(0xCE8628B4, 0x415DBA9E, 0x2792F049, 0x8E9B79E7,
                  0x6DC6A3D7, 0x868829B7, 0x13D62691, 0x32E314B4, 0x8AE8B20F)
  const Key11 := L(0x79C425C5, 0x6353B49D, 0x00994218, 0x8A950ED1,
                  0xABE1748A, 0xDEE4B7A8, 0x5CBFCCD3, 0x97D7CD14, 0xDB71A8F5)
  const Key12 := L(0xAF5D0B99, 0xFD9883DE, 0x1ED8FFEB, 0xF007FF28,
                  0x10E7F671, 0x0E5D77C4, 0x8197E121, 0xDD443413, 0xAAF85D22)
  const Key13 := L(0x425E3674, 0x059631C0, 0xAD6C3C31, 0x860B71D7,
                  0x7E1242F2, 0x50C9104C, 0x131822B1, 0x49B1A4E5, 0x4439FD9C)
  const Key14 := L(0x87BFC548, 0x3E64F92D, 0x8D0AB761, 0x34E1EE35,
                  0x4872D85A, 0xD284F163, 0x83091F0B, 0x1BBDBFBD, 0x9F8490BC)
  const Key15 := L(0x0ACF5108, 0xC2B479DA, 0x6C93370A, 0xF7935BA1,
                  0x685E2FF6, 0x840054D3, 0xE43C0363, 0x3350802E, 0x921CB616)
  const Key16 := L(0xE91C91C1, 0xBED165A2, 0x4C3E4ABE, 0x50D96238,
                  0xCF8658EC, 0x53131A40, 0xF0F0B916, 0x2933B806, 0x9A178BFD)
  const Key17 := L(0xB6587DDE, 0x1A2EE6E6, 0x2D335896, 0xF3495D0B,
                  0x7E65E044, 0x80D59773, 0x81CE06DF, 0xA59B8126, 0x33E1963B)
  const Key18 := L(0xF30E0A1D, 0x32CE5459, 0x7165E3B8, 0xAB05FF94,
                  0x69CF0BCA, 0xE20983F9, 0x050EA0E2, 0xD8A39ED1, 0x1F997811)
  const Key19 := L(0xC5949F0B, 0xBCD84E4A, 0x07720392, 0xFF3FF806,
                  0xF48A5426, 0x835995E1, 0x25C11EFB, 0x4A45C402, 0x9A73C2F2)

  const KeyFirst := List(Key0) + List(Key1) + List(Key2) + List(Key3)

  const KeyRow0: seq<byte> :=
    [0x64, 0x47, 0x68, 0x6C, 0x49, 0x48, 0x4E, 0x68, 0x62, 0x58, 0x42, 0x73, 0x5A, 0x53, 0x42, 0x75]
  const KeyRow1: seq<byte> :=
    [0x62, 0x32, 0x35, 0x6A, 0x5A, 0x51, 0x3D, 0x3D, 0x32, 0x35, 0x38, 0x45, 0x41, 0x46, 0x41, 0x35]
  const KeyRow2: seq<byte> :=
    [0x2D, 0x45, 0x39, 0x31, 0x34, 0x2D, 0x34, 0x37, 0x44, 0x41, 0x2D, 0x39, 0x35, 0x43, 0x41, 0x2D]
  const KeyRow3: seq<byte> :=
    [0x43, 0x35, 0x41, 0x42, 0x30, 0x44, 0x43, 0x38, 0x35, 0x42, 0x31, 0x31, 0x80, 0x00, 0x00, 0x00]

  lemma KeyWords0()
    ensures WordOf(0x64, 0x47, 0x68, 0x6C) == Key0.a && WordOf(0x49, 0x48, 0x4E, 0x68) == Key0.b
    ensures WordOf(0x62, 0x58, 0x42, 0x73) == Key0.c && WordOf(0x5A, 0x53, 0x42, 0x75) == Key0.d
  {
    assert (0x42 as bv32) == 0x42 && (0x47 as bv32) == 0x47 && (0x48 as bv32) == 0x48 && (0x49 as bv32) == 0x49;
    assert (0x4E as bv32) == 0x4E && (0x53 as bv32) == 0x53 && (0x58 as bv32) == 0x58 && (0x5A as bv32) == 0x5A;
    assert (0x62 as bv32) == 0x62 && (0x64 as bv32) == 0x64 && (0x68 as bv32) == 0x68 && (0x6C as bv32) == 0x6C;
    assert (0x73 as bv32) == 0x73 && (0x75 as bv32) == 0x75;
  }

  lemma KeyReads0(b: seq<byte>, w: seq<Word>)
    requires |b| == 64 && |w| == 0 && Sha1.Loaded(w, b, 0) && b[0..16] == KeyRow0
    ensures Sha1.Loaded(w + List(Key0), b, 4)
  {
    KeyWords0();
    Octets16(b, 0, KeyRow0);
    LoadsFour(b, w, 0, Key0);
  }

  lemma KeyWords1()
    ensures WordOf(0x62, 0x32, 0x35, 0x6A) == Key1.a && WordOf(0x5A, 0x51, 0x3D, 0x3D) == Key1.b
    ensures WordOf(0x32, 0x35, 0x38, 0x45) == Key1.c && WordOf(0x41, 0x46, 0x41, 0x35) == Key1.d
  {
    assert (0x32 as bv32) == 0x32 && (0x35 as bv32) == 0x35 && (0x38 as bv32) == 0x38 && (0x3D as bv32) == 0x3D;
    assert (0x41 as bv32) == 0x41 && (0x45 as bv32) == 0x45 && (0x46 as bv32) == 0x46 && (0x51 as bv32) == 0x51;
    assert (0x5A as bv32) == 0x5A && (0x62 as bv32) == 0x62 && (0x6A as bv32) == 0x6A;
  }

  lemma KeyReads1(b: seq<byte>, w: seq<Word>)
    requires |b| == 64 && |w| == 4 && Sha1.Loaded(w, b, 4) && b[16..32] == KeyRow1
    ensures Sha1.Loaded(w + List(Key1), b, 8)
  {
    KeyWords1();
    Octets16(b, 16, KeyRow1);
    LoadsFour(b, w, 4, Key1);
  }

  lemma KeyWords2()
    ensures WordOf(0x2D, 0x45, 0x39, 0x31) == Key2.a && WordOf(0x34, 0x2D, 0x34, 0x37) == Key2.b
    ensures WordOf(0x44, 0x41, 0x2D, 0x39) == Key2.c && WordOf(0x35, 0x43, 0x41, 0x2D) == Key2.d
  {
    assert (0x2D as bv32) == 0x2D && (0x31 as bv32) == 0x31 && (0x34 as bv32) == 0x34 && (0x35 as bv32) == 0x35;
    assert (0x37 as bv32) == 0x37 && (0x39 as bv32) == 0x39 && (0x41 as bv32) == 0x41 && (0x43 as bv32) == 0x43;
    assert (0x44 as bv32) == 0x44 && (0x45 as bv32) == 0x45;
  }

  lemma KeyReads2(b: seq<byte>, w: seq<Word>)
    requires |b| == 64 && |w| == 8 && Sha1.Loaded(w, b, 8) && b[32..48] == KeyRow2
    ensures Sha1.Loaded(w + List(Key2), b, 12)
  {
    KeyWords2();
    Octets16(b, 32, KeyRow2);
    LoadsFour(b, w, 8, Key2);
  }

  lemma KeyWords3()
    ensures WordOf(0x43, 0x35, 0x41, 0x42) == Key3.a && WordOf(0x30, 0x44, 0x43, 0x38) == Key3.b
    ensures WordOf(0x35, 0x42, 0x31, 0x31) == Key3.c && WordOf(0x80, 0x00, 0x00, 0x00) == Key3.d
  {
    assert (0x00 as bv32) == 0x00 && (0x30 as bv32) == 0x30 && (0x31 as bv32) == 0x31 && (0x35 as bv32) == 0x35;
    assert (0x38 as bv32) == 0x38 && (0x41 as bv32) == 0x41 && (0x42 as bv32) == 0x42 && (0x43 as bv32) == 0x43;
    assert (0x44 as bv32) == 0x44 && (0x80 as bv32) == 0x80;
  }

  lemma KeyReads3(b: seq<byte>, w: seq<Word>)
    requires |b| == 64 && |w| == 12 && Sha1.Loaded(w, b, 12) && b[48..64] == KeyRow3
    ensures Sha1.Loaded(w + List(Key3), b, 16)
  {
    KeyWords3();
    Octets16(b, 48, KeyRow3);
    LoadsFour(b, w, 12, Key3);
  }

  lemma KeyLoaded(b: seq<byte>)
    requires b == KeyRow0 + KeyRow1 + KeyRow2 + KeyRow3
    ensures |b| == 64 && Sha1.Loaded(KeyFirst, b, 16)
  {
    assert b[0..16] == KeyRow0;
    KeyReads0(b, []);
    assert [] + List(Key0) == List(Key0);
    assert b[16..32] == KeyRow1;
    KeyReads1(b, List(Key0));
    assert b[32..48] == KeyRow2;
    KeyReads2(b, List(Key0) + List(Key1));
    assert b[48..64] == KeyRow3;
    KeyReads3(b, List(Key0) + List(Key1) + List(Key2));
  }

  lemma KeyLines0()
    ensures At(H0, KeyFirst, 4, Key0, Key1, Key2, Key3)
  {
    LeadOne(H0, Key0);
    LeadMore(H0, [Key0], Key0.r, Key1);
    LeadMore(H0, [Key0] + [Key1], Key1.r, Key2);
    LeadMore(H0, [Key0] + [Key1] + [Key2], Key2.r, Key3);
    First(H0, Key0, Key1, Key2, Key3);
  }

  lemma KeyLines4()
    ensures At(H0, KeyFirst, 8, Key4, Key5, Key6, Key7)
  {
    KeyLines0();
    More(H0, KeyFirst, 4, Key0, Key1, Key2, Key3, Key4);
    More(H0, KeyFirst, 5, Key1, Key2, Key3, Key4, Key5);
    More(H0, KeyFirst, 6, Key2, Key3, Key4, Key5, Key6);
    More(H0, KeyFirst, 7, Key3, Key4, Key5, Key6, Key7);
  }

  lemma KeyLines8()
    ensures At(H0, KeyFirst, 12, Key8, Key9, Key10, Key11)
  {
    KeyLines4();
    More(H0, KeyFirst, 8, Key4, Key5, Key6, Key7, Key8);
    More(H0, KeyFirst, 9, Key5, Key6, Key7, Key8, Key9);
    More(H0, KeyFirst, 10, Key6, Key7, Key8, Key9, Key10);
    More(H0, KeyFirst, 11, Key7, Key8, Key9, Key10, Key11);
  }

  lemma KeyLines12()
    ensures At(H0, KeyFirst, 16, Key12, Key13, Key14, Key15)
  {
    KeyLines8();
    More(H0, KeyFirst, 12, Key8, Key9, Key10, Key11, Key12);
    More(H0, KeyFirst, 13, Key9, Key10, Key11, Key12, Key13);
    More(H0, KeyFirst, 14, Key10, Key11, Key12, Key13, Key14);
    More(H0, KeyFirst, 15, Key11, Key12, Key13, Key14, Key15);
  }

  lemma KeyLines16()
    ensures At(H0, KeyFirst, 20, Key16, Key17, Key18, Key19)
  {
    KeyLines12();
    More(H0, KeyFirst, 16, Key12, Key13, Key14, Key15, Key16);
    More(H0, KeyFirst, 17, Key13, Key14, Key15, Key16, Key17);
    More(H0, KeyFirst, 18, Key14, Key15, Key16, Key17, Key18);
    More(H0, KeyFirst, 19, Key15, Key16, Key17, Key18, Key19);
  }

  lemma KeyBlock(b: seq<byte>)
    requires b == KeyRow0 + KeyRow1 + KeyRow2 + KeyRow3
    ensures |b| == 64 && Compress(H0, b) ==
            Regs(Word(0x5BCF7727), Word(0x7327416A), Word(0xBE7BFBF9), Word(0x5A781878), Word(0x5E46A4E2))
  {
    KeyLines16();
    KeyLoaded(b);
    Last(H0, KeyFirst, b, Key16, Key17, Key18, Key19);
  }

  const Half := Regs(Word(0x5BCF7727), Word(0x7327416A), Word(0xBE7BFBF9), Word(0x5A781878), Word(0x5E46A4E2))

  // ---------------------------------------------------------------- the second block

  const End0 := L(0x00000000, 0x00000000, 0x00000000, 0x00000000,
                  0x15855523, 0xF9FB295D, 0x061801AE, 0x9B4CD737, 0xD6F3DDC9)
  const End1 := L(0x00000000, 0x00000000, 0x00000000, 0x00000000,
                  0x25C018BE, 0xB3BBCAFE, 0xE4E97BEE, 0xB90F74BC, 0xC5615548)
  const End2 := L(0x00000000, 0x00000000, 0x00000000, 0x00000000,
                  0x250601AD, 0x4CE92417, 0xC2C20530, 0xE0251964, 0x8970062F)
  const End3 := L(0x00000000, 0x00000000, 0x00000000, 0x000001E0,
                  0x986DF268, 0x990B7BE7, 0xAB50FCE7, 0x195DB4B7, 0x4941806B)
  const End4 := L(0x00000000, 0x00000000, 0x000003C0, 0x00000000,
                  0x2A008B51, 0x2F193A09, 0x9C8663C1, 0x8EB5D103, 0x261B7C9A)
  const End5 := L(0x00000000, 0x00000780, 0x00000000, 0x000003C0,
                  0x53C73650, 0x3E5179E7, 0x103EF3E6, 0xC48C56CA, 0x4A8022D4)
  const End6 := L(0x00000F00, 0x00000000, 0x00000000, 0x00001E00,
                  0x9327DF6F, 0xD2E726DA, 0x591B19DF, 0x87493112, 0x14F1CD94)
  const End7 := L(0x00000000, 0x00000CC0, 0x00003C00, 0x00000440,
                  0x3CF6EB58, 0xF4DDD7B7, 0xC90FB815, 0xBD5F2D4F, 0xE4C9F7DB)
  const End8 := L(0x00000000, 0x00007800, 0x00000F00, 0x00003300,
                  0x76922A14, 0x942AC4D3, 0xA5B67967, 0x1CC3A45C, 0x0F3DBAD6)
  const End9 := L(0x0000F000, 0x00000F00, 0x00000000, 0x0001EF00,
                  0x6F698F1A, 0xC6FF0CD3, 0xDE5AB7BC, 0x5F6F3CBB, 0x1DA48A85)
  const End10 := L(0x00000000, 0x0000CC00, 0x0003C000, 0x00004380,
                  0x1E934ACF, 0xEDFCD85B, 0xBF0D0E80, 0x5E1C59DA, 0x9BDA63C6)
  const End11 := L(0x00000000, 0x00078F00, 0x0000FF00, 0x00032680,
                  0xA3EF857E, 0xC8CDA3DA, 0xCEF6480E, 0xFF1EF4D7, 0xC7A4D2B3)
  const End12 := L(0x000F0000, 0x0000F000, 0x00003300, 0x001EFF00,
                  0x5FE2A3DB, 0xA3ABE4F5, 0x6945BC99, 0x68E7C810, 0xA8FBE15F)
  const End13 := L(0x00000000, 0x000CB800, 0x003C0000, 0x00040B00,
                  0xA1B68141, 0x660DD0B1, 0x0B1CEF5E, 0xE795018D, 0xD7F8A8F6)
  const End14 := L(0x0000F000, 0x0078FF00, 0x000FF000, 0x00338700,
                  0x56119F19, 0x085EB2FE, 0x484A25C5, 0xC140CFE8, 0x686DA050)
  const End15 := L(0x00F00000, 0x000FC300, 0x0000F000, 0x01EFBB00,
                  0xA5937450, 0xD5EF1ED7, 0xC444CBE3, 0xDDD22788, 0x558467C6)
  const End16 := L(0x00000000, 0x00CC0000, 0x03C0F000, 0x00438000,
                  0x097A511C, 0xC97F1968, 0xC5E88BBD, 0x27B3E99B, 0x2964DD14)
  const End17 := L(0x00000000, 0x078F0000, 0x00FF0000, 0x03269E00,
                  0xC90888CA, 0xF6D1AFEE, 0x6FCE9FE5, 0x538D8F6E, 0x025E9447)
  const End18 := L(0x0F000000, 0x00F0F000, 0x00333C00, 0x1EFF8800,
                  0x51E08021, 0xE22B36D1, 0x09BE6664, 0xF1D94BB6, 0xB2422232)
  const End19 := L(0x00000000, 0x0CB88800, 0x3C00F000, 0x040A4A00,
                  0x57AAD805, 0x4D3B0DAC, 0xD27A4A0D, 0x74C040CD, 0x54782008)

  const EndFirst := List(End0) + List(End1) + List(End2) + List(End3)

  const EndRow3: seq<byte> :=
    [0x00, 0x00, 0x00, 0x00, 0x00, 0x00, 0x00, 0x00, 0x00, 0x00, 0x00, 0x00, 0x00, 0x00, 0x01, 0xE0]

  lemma EndWords3()
    ensures WordOf(0x00, 0x00, 0x00, 0x00) == End3.a && WordOf(0x00, 0x00, 0x00, 0x00) == End3.b
    ensures WordOf(0x00, 0x00, 0x00, 0x00) == End3.c && WordOf(0x00, 0x00, 0x01, 0xE0) == End3.d
  {
    assert (0x00 as bv32) == 0x00 && (0x01 as bv32) == 0x01 && (0xE0 as bv32) == 0xE0;
  }

  lemma EndReads3(b: seq<byte>, w: seq<Word>)
    requires |b| == 64 && |w| == 12 && Sha1.Loaded(w, b, 12) && b[48..64] == EndRow3
    ensures Sha1.Loaded(w + List(End3), b, 16)
  {
    EndWords3();
    Octets16(b, 48, EndRow3);
    LoadsFour(b, w, 12, End3);
  }

  lemma EndLoaded(b: seq<byte>)
    requires b == ZEROS + ZEROS + ZEROS + EndRow3
    ensures |b| == 64 && Sha1.Loaded(EndFirst, b, 16)
  {
    assert b[0..16] == ZEROS;
    LoadsZeros(b, [], 0, End0);
    assert [] + List(End0) == List(End0);
    assert b[16..32] == ZEROS;
    LoadsZeros(b, List(End0), 4, End1);
    assert b[32..48] == ZEROS;
    LoadsZeros(b, List(End0) + List(End1), 8, End2);
    assert b[48..64] == EndRow3;
    EndReads3(b, List(End0) + List(End1) + List(End2));
  }

  lemma EndLines0()
    ensures At(Half, EndFirst, 4, End0, End1, End2, End3)
  {
    LeadOne(Half, End0);
    LeadMore(Half, [End0], End0.r, End1);
    LeadMore(Half, [End0] + [End1], End1.r, End2);
    LeadMore(Half, [End0] + [End1] + [End2], End2.r, End3);
    First(Half, End0, End1, End2, End3);
  }

  lemma EndLines4()
    ensures At(Half, EndFirst, 8, End4, End5, End6, End7)
  {
    EndLines0();
    More(Half, EndFirst, 4, End0, End1, End2, End3, End4);
    More(Half, EndFirst, 5, End1, End2, End3, End4, End5);
    More(Half, EndFirst, 6, End2, End3, End4, End5, End6);
    More(Half, EndFirst, 7, End3, End4, End5, End6, End7);
  }

  lemma EndLines8()
    ensures At(Half, EndFirst, 12, End8, End9, End10, End11)
  {
    EndLines4();
    More(Half, EndFirst, 8, End4, End5, End6, End7, End8);
    More(Half, EndFirst, 9, End5, End6, End7, End8, End9);
    More(Half, EndFirst, 10, End6, End7, End8, End9, End10);
    More(Half, EndFirst, 11, End7, End8, End9, End10, End11);
  }

  lemma EndLines12()
    ensures At(Half, EndFirst, 16, End12, End13, End14, End15)
  {
    EndLines8();
    More(Half, EndFirst, 12, End8, End9, End10, End11, End12);
    More(Half, EndFirst, 13, End9, End10, End11, End12, End13);
    More(Half, EndFirst, 14, End10, End11, End12, End13, End14);
    More(Half, EndFirst, 15, End11, End12, End13, End14, End15);
  }

  lemma EndLines16()
    ensures At(Half, EndFirst, 20, End16, End17, End18, End19)
  {
    EndLines12();
    More(Half, EndFirst, 16, End12, End13, End14, End15, End16);
    More(Half, EndFirst, 17, End13, End14, End15, End16, End17);
    More(Half, EndFirst, 18, End14, End15, End16, End17, End18);
    More(Half, EndFirst, 19, End15, End16, End17, End18, End19);
  }

  lemma EndBlock(b: seq<byte>)
    requires b == ZEROS + ZEROS + ZEROS + EndRow3
    ensures |b| == 64 && Compress(Half, b) ==
            Regs(Word(0xB37A4F2C), Word(0xC0624F16), Word(0x90F64606), Word(0xCF385945), Word(0xB2BEC4EA))
  {
    EndLines16();
    EndLoaded(b);
    Last(Half, EndFirst, b, End16, End17, End18, End19);
  }

  const REST: seq<byte> := [0x43, 0x35, 0x41, 0x42, 0x30, 0x44, 0x43, 0x38, 0x35, 0x42, 0x31, 0x31]
  const TEXT := KeyRow0 + KeyRow1 + KeyRow2 + REST

  lemma Padded()
    ensures TEXT + Padding(60, Octets(480, 8)) ==
            KeyRow0 + KeyRow1 + KeyRow2 + KeyRow3 + (ZEROS + ZEROS + ZEROS + EndRow3)
  {
    assert Octets(480, 8) == [0, 0, 0, 0, 0, 0, 0x01, 0xE0];
    PadTwo(KeyRow0 + KeyRow1 + KeyRow2, REST, KeyRow3, EndRow3, Octets(480, 8));
  }

  /** The digest of the key of the example followed by the GUID. */
  lemma HandshakeDigest()
    ensures Digest(TEXT) ==
            Regs(Word(0xB37A4F2C), Word(0xC0624F16), Word(0x90F64606), Word(0xCF385945), Word(0xB2BEC4EA))
  {
    var b, c := KeyRow0 + KeyRow1 + KeyRow2 + KeyRow3, ZEROS + ZEROS + ZEROS + EndRow3;
    Padded();
    KeyBlock(b);
    EndBlock(c);
    AbsorbTwo(H0, b, c);
  }
}
