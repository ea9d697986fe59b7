/** The example of appendix A of FIPS PUB 180-1, one block, computed line by line.
 */
module AbcAnswer {
  import opened Bytes
  import opened Fips180
  import opened DigestTrace
  import Sha1

  // ---------------------------------------------------------------- the block

  const Abc0 := L(0x61626380, 0x00000000, 0x00000000, 0x00000000,
                  0xCDD8E11B, 0xA1390F08, 0x626414DB, 0xC045BF0C, 0x59D148C0)
  const Abc1 := L(0x00000000, 0x00000000, 0x00000000, 0x00000000,
                  0x9E8C07D4, 0x993E30C1, 0x0FF1F290, 0xB3F52677, 0xF3763846)
  const Abc2 := L(0x00000000, 0x00000000, 0x00000000, 0x00000000,
                  0x63188FE4, 0xFBDA9E89, 0x60D47E4A, 0x12DAB8CA, 0x27A301F5)
  const Abc3 := L(0x00000000, 0x00000000, 0x00000000, 0x00000018,
                  0x20BDD62F, 0x196BEE77, 0x644A3DA5, 0x1181ED99, 0x18C623F9)
  const Abc4 := L(0xC2C4C700, 0x00000000, 0x00000030, 0x85898E01,
                  0xFD9E1D7D, 0xDC64901D, 0x20AA99CA, 0xD3A49608, 0xC82F758B)
  const Abc5 := L(0x00000000, 0x00000060, 0x0B131C03, 0x00000030,
                  0xD541F12D, 0x21283486, 0x0CE88EFF, 0x868DEC32, 0x7F67875F)
  const Abc6 := L(0x85898EC1, 0x16263806, 0x00000000, 0x00000180,
                  0x4AA84D97, 0xBE35FBD5, 0x12104EE9, 0xB1D59F71, 0x75507C4B)
  const Abc7 := L(0x2C4C700C, 0x000000F0, 0x93AFB507, 0x5898E048,
                  0x3B845D33, 0x1267B407, 0x717EEBD7, 0xA0DC2D4B, 0xD2AA1365)
  const Abc8 := L(0x8E9A9202, 0x00000600, 0xB131C0F0, 0x16263BC6,
                  0xDCBBB0CB, 0x21796AD4, 0x4B03AF04, 0x811BEA82, 0xCEE1174C)
  const Abc9 := L(0x4EBED41E, 0x626380A1, 0x16263806, 0x000018C0,
                  0x32DE1CBA, 0x4C986405, 0xF718E5CF, 0x03D447F6, 0xF72EEC32)
  const Abc10 := L(0xD2E138C4, 0x00000F00, 0x3AFB5079, 0x898E04E5,
                  0xEE1B1AAF, 0x7F193DC5, 0x25C28357, 0xFF21F7B7, 0x8CB7872E)
  const Abc11 := L(0xE2BA3C2B, 0x000060C0, 0x053A37CD, 0x74458547,
                  0xBEAD02CA, 0xA01B846C, 0x8714787C, 0x503CA382, 0xFB86C6AB)
  const Abc12 := L(0xDA9415ED, 0x26380A16, 0x626383A1, 0x4EBF54DE,
                  0x3847AD66, 0x641DB2CE, 0x4481CC71, 0xEEBCE4CD, 0xAFAB40B2)
  const Abc13 := L(0x3835B44B, 0x0000F600, 0x1E84C7A3, 0x98E04D98,
                  0x5E6456AF, 0x7B71F76D, 0x09FA7C76, 0x792410DB, 0x8E11EB59)
  const Abc14 := L(0x651D16A0, 0x62658CA1, 0x458544D6, 0x44584CB7,
                  0x3F52DE5A, 0x09D785FD, 0x3498BFD4, 0xF211824F, 0xD79915AB)
  const Abc15 := L(0x7BA06619, 0x6380AEA2, 0x0AE55269, 0x627B49A1,
                  0x6B61C9E1, 0xB66C020B, 0x9523272C, 0xF5D5B051, 0x8FD4B796)
  const Abc16 := L(0x7CD45C9D, 0x000F0000, 0xFB50753A, 0xEC6765E8,
                  0x78DD4D2B, 0x0C3DF2B4, 0x4405957E, 0x0677E9EB, 0x5AD87278)
  const Abc17 := L(0xBA3C2BE2, 0x0060C000, 0x3A37CD05, 0x458546F4,
                  0x39859DE7, 0xC199F8C7, 0x8FC96230, 0x125C24F0, 0xDE37534A)
  const Abc18 := L(0xB8599DD6, 0x380A1A26, 0x01E02203, 0xE7CC3456,
                  0x63F7DAB7, 0x5EE76897, 0xC45E4FDB, 0x3B6D0B79, 0xCE616779)
  const Abc19 := L(0xE6E60B69, 0x00F60A00, 0x5795EF4F, 0x822E0879,
                  0x42541B35, 0x5738D5E1, 0x21834873, 0x681E6DF6, 0xD8FDF6AD)

  const AbcFirst := List(Abc0) + List(Abc1) + List(Abc2) + List(Abc3)

  const AbcRow0: seq<byte> :=
    [0x61, 0x62, 0x63, 0x80, 0x00, 0x00, 0x00, 0x00, 0x00, 0x00, 0x00, 0x00, 0x00, 0x00, 0x00, 0x00]
  const AbcRow3: seq<byte> :=
    [0x00, 0x00, 0x00, 0x00, 0x00, 0x00, 0x00, 0x00, 0x00, 0x00, 0x00, 0x00, 0x00, 0x00, 0x00, 0x18]

  lemma AbcWords0()
    ensures WordOf(0x61, 0x62, 0x63, 0x80) == Abc0.a && WordOf(0x00, 0x00, 0x00, 0x00) == Abc0.b
    ensures WordOf(0x00, 0x00, 0x00, 0x00) == Abc0.c && WordOf(0x00, 0x00, 0x00, 0x00) == Abc0.d
  {
    assert (0x00 as bv32) == 0x00 && (0x61 as bv32) == 0x61 && (0x62 as bv32) == 0x62 && (0x63 as bv32) == 0x63;
    assert (0x80 as bv32) == 0x80;
  }

  lemma AbcReads0(b: seq<byte>, w: seq<Word>)
    requires |b| == 64 && |w| == 0 && Sha1.Loaded(w, b, 0) && b[0..16] == AbcRow0
    ensures Sha1.Loaded(w + List(Abc0), b, 4)
  {
    AbcWords0();
    Octets16(b, 0, AbcRow0);
    LoadsFour(b, w, 0, Abc0);
  }

  lemma AbcWords3()
    ensures WordOf(0x00, 0x00, 0x00, 0x00) == Abc3.a && WordOf(0x00, 0x00, 0x00, 0x00) == Abc3.b
    ensures WordOf(0x00, 0x00, 0x00, 0x00) == Abc3.c && WordOf(0x00, 0x00, 0x00, 0x18) == Abc3.d
  {
    assert (0x00 as bv32) == 0x00 && (0x18 as bv32) == 0x18;
  }

  lemma AbcReads3(b: seq<byte>, w: seq<Word>)
    requires |b| == 64 && |w| == 12 && Sha1.Loaded(w, b, 12) && b[48..64] == AbcRow3
    ensures Sha1.Loaded(w + List(Abc3), b, 16)
  {
    AbcWords3();
    Octets16(b, 48, AbcRow3);
    LoadsFour(b, w, 12, Abc3);
  }

  lemma AbcLoaded(b: seq<byte>)
    requires b == AbcRow0 + ZEROS + ZEROS + AbcRow3
    ensures |b| == 64 && Sha1.Loaded(AbcFirst, b, 16)
  {
    assert b[0..16] == AbcRow0;
    AbcReads0(b, []);
    assert [] + List(Abc0) == List(Abc0);
    assert b[16..32] == ZEROS;
    LoadsZeros(b, List(Abc0), 4, Abc1);
    assert b[32..48] == ZEROS;
    LoadsZeros(b, List(Abc0) + List(Abc1), 8, Abc2);
    assert b[48..64] == AbcRow3;
    AbcReads3(b, List(Abc0) + List(Abc1) + List(Abc2));
  }

  lemma AbcLines0()
    ensures At(H0, AbcFirst, 4, Abc0, Abc1, Abc2, Abc3)
  {
    LeadOne(H0, Abc0);
    LeadMore(H0, [Abc0], Abc0.r, Abc1);
    LeadMore(H0, [Abc0] + [Abc1], Abc1.r, Abc2);
    LeadMore(H0, [Abc0] + [Abc1] + [Abc2], Abc2.r, Abc3);
    First(H0, Abc0, Abc1, Abc2, Abc3);
  }

  lemma AbcLines4()
    ensures At(H0, AbcFirst, 8, Abc4, Abc5, Abc6, Abc7)
  {
    AbcLines0();
    More(H0, AbcFirst, 4, Abc0, Abc1, Abc2, Abc3, Abc4);
    More(H0, AbcFirst, 5, Abc1, Abc2, Abc3, Abc4, Abc5);
    More(H0, AbcFirst, 6, Abc2, Abc3, Abc4, Abc5, Abc6);
    More(H0, AbcFirst, 7, Abc3, Abc4, Abc5, Abc6, Abc7);
  }

  lemma AbcLines8()
    ensures At(H0, AbcFirst, 12, Abc8, Abc9, Abc10, Abc11)
  {
    AbcLines4();
    More(H0, AbcFirst, 8, Abc4, Abc5, Abc6, Abc7, Abc8);
    More(H0, AbcFirst, 9, Abc5, Abc6, Abc7, Abc8, Abc9);
    More(H0, AbcFirst, 10, Abc6, Abc7, Abc8, Abc9, Abc10);
    More(H0, AbcFirst, 11, Abc7, Abc8, Abc9, Abc10, Abc11);
  }

  lemma AbcLines12()
    ensures At(H0, AbcFirst, 16, Abc12, Abc13, Abc14, Abc15)
  {
    AbcLines8();
    More(H0, AbcFirst, 12, Abc8, Abc9, Abc10, Abc11, Abc12);
    More(H0, AbcFirst, 13, Abc9, Abc10, Abc11, Abc12, Abc13);
    More(H0, AbcFirst, 14, Abc10, Abc11, Abc12, Abc13, Abc14);
    More(H0, AbcFirst, 15, Abc11, Abc12, Abc13, Abc14, Abc15);
  }

  lemma AbcLines16()
    ensures At(H0, AbcFirst, 20, Abc16, Abc17, Abc18, Abc19)
  {
    AbcLines12();
    More(H0, AbcFirst, 16, Abc12, Abc13, Abc14, Abc15, Abc16);
    More(H0, AbcFirst, 17, Abc13, Abc14, Abc15, Abc16, Abc17);
    More(H0, AbcFirst, 18, Abc14, Abc15, Abc16, Abc17, Abc18);
    More(H0, AbcFirst, 19, Abc15, Abc16, Abc17, Abc18, Abc19);
  }

  lemma AbcBlock(b: seq<byte>)
    requires b == AbcRow0 + ZEROS + ZEROS + AbcRow3
    ensures |b| == 64 && Compress(H0, b) ==
            Regs(Word(0xA9993E36), Word(0x4706816A), Word(0xBA3E2571), Word(0x7850C26C), Word(0x9CD0D89D))
  {
    AbcLines16();
    AbcLoaded(b);
    Last(H0, AbcFirst, b, Abc16, Abc17, Abc18, Abc19);
  }

  lemma Padded()
    ensures [0x61, 0x62, 0x63] + Padding(3, Octets(24, 8)) == AbcRow0 + ZEROS + ZEROS + AbcRow3
  {
    assert Octets(24, 8) == [0, 0, 0, 0, 0, 0, 0, 24];
    PadOne([0x61, 0x62, 0x63], AbcRow0, AbcRow3, Octets(24, 8));
  }

  /** The digest of "abc". */
  lemma AbcDigest()
    ensures Digest([0x61, 0x62, 0x63]) ==
            Regs(Word(0xA9993E36), Word(0x4706816A), Word(0xBA3E2571), Word(0x7850C26C), Word(0x9CD0D89D))
  {
    var b := AbcRow0 + ZEROS + ZEROS + AbcRow3;
    Padded();
    AbcBlock(b);
    AbsorbOne(H0, b);
  }
}
