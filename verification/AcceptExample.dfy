/** The example in section 1.3 of RFC 6455: a key and the value of the header that answers it.
 */
module AcceptExample {
  import opened Bytes
  import opened Fips180
  import opened WebSocketAccept
  import opened HandshakeAnswer
  import Base64

  lemma AsciiConcat(a: string, b: string)
    ensures Ascii(a + b) == Ascii(a) + Ascii(b)
  {
  }

  lemma KeyRows()
    ensures Ascii("dGhlIHNhbXBsZSBu") == KeyRow0 && Ascii("b25jZQ==") + Ascii("258EAFA5") == KeyRow1
  {
  }

  lemma GuidRows()
    ensures Ascii("-E914-47DA-95CA-") == KeyRow2 && Ascii("C5AB0DC85B11") == REST
  {
  }

  const KEY := "dGhlIHNhbXBsZSBu" + "b25jZQ=="

  lemma GuidParts()
    ensures GUID == "258EAFA5" + ("-E914-47DA-95CA-" + "C5AB0DC85B11")
  {
  }

  lemma KeyAndGuid()
    ensures Ascii(KEY) + Ascii(GUID) == TEXT
  {
    KeyRows();
    GuidRows();
    GuidParts();
    AsciiConcat("dGhlIHNhbXBsZSBu", "b25jZQ==");
    AsciiConcat("258EAFA5", "-E914-47DA-95CA-" + "C5AB0DC85B11");
    AsciiConcat("-E914-47DA-95CA-", "C5AB0DC85B11");
    Regroup(KeyRow0, Ascii("b25jZQ=="), Ascii("258EAFA5"), KeyRow2, REST);
  }

  lemma Regroup(a: seq<byte>, b: seq<byte>, c: seq<byte>, d: seq<byte>, e: seq<byte>)
    ensures a + b + (c + (d + e)) == a + (b + c) + d + e
  {
  }

  lemma Octets()
    ensures DigestOctets(Regs(Word(0xB37A4F2C), Word(0xC0624F16), Word(0x90F64606), Word(0xCF385945), Word(0xB2BEC4EA)))
         == [0xB3, 0x7A, 0x4F, 0x2C] + [0xC0, 0x62, 0x4F, 0x16] + [0x90, 0xF6, 0x46, 0x06] + [0xCF, 0x38, 0x59, 0x45]
            + [0xB2, 0xBE, 0xC4, 0xEA]
  {
    assert WordOctets(Word(0xB37A4F2C)) == [0xB3, 0x7A, 0x4F, 0x2C];
    assert WordOctets(Word(0xC0624F16)) == [0xC0, 0x62, 0x4F, 0x16];
    assert WordOctets(Word(0x90F64606)) == [0x90, 0xF6, 0x46, 0x06];
    assert WordOctets(Word(0xCF385945)) == [0xCF, 0x38, 0x59, 0x45];
    assert WordOctets(Word(0xB2BEC4EA)) == [0xB2, 0xBE, 0xC4, 0xEA];
  }

  lemma Groups()
    ensures [0xB3, 0x7A, 0x4F, 0x2C] + [0xC0, 0x62, 0x4F, 0x16] + [0x90, 0xF6, 0x46, 0x06] + [0xCF, 0x38, 0x59, 0x45]
            + [0xB2, 0xBE, 0xC4, 0xEA]
         == [0xB3, 0x7A, 0x4F] + ([0x2C, 0xC0, 0x62] + ([0x4F, 0x16, 0x90] + ([0xF6, 0x46, 0x06] +
            ([0xCF, 0x38, 0x59] + ([0x45, 0xB2, 0xBE] + [0xC4, 0xEA])))))
  {
  }

  lemma Group(a: byte, b: byte, c: byte, rest: seq<byte>)
    ensures Base64.Encode([a, b, c] + rest) == Base64.GroupText(a, b, c) + Base64.Encode(rest)
  {
    assert ([a, b, c] + rest)[3..] == rest;
  }

  lemma Text0()
    ensures Base64.GroupText(0xB3, 0x7A, 0x4F) == "s3pP"
  {
  }

  lemma Text1()
    ensures Base64.GroupText(0x2C, 0xC0, 0x62) == "LMBi"
  {
  }

  lemma Text2()
    ensures Base64.GroupText(0x4F, 0x16, 0x90) == "TxaQ"
  {
  }

  lemma Text3()
    ensures Base64.GroupText(0xF6, 0x46, 0x06) == "9kYG"
  {
  }

  lemma Text4()
    ensures Base64.GroupText(0xCF, 0x38, 0x59) == "zzhZ"
  {
  }

  lemma Text5()
    ensures Base64.GroupText(0x45, 0xB2, 0xBE) == "RbK+"
  {
  }

  lemma TextEnd()
    ensures Base64.Encode([0xC4, 0xEA]) == "xOo="
  {
  }

  lemma Joined()
    ensures "s3pP" + ("LMBi" + ("TxaQ" + ("9kYG" + ("zzhZ" + ("RbK+" + "xOo="))))) == "s3pPLMBiTxaQ9kYGzzhZRbK+xOo="
  {
  }

  /** The key of the example gets the value given there. */
  lemma ExampleAccepted()
    ensures AcceptValue(Ascii(KEY)) == "s3pPLMBiTxaQ9kYGzzhZRbK+xOo="
  {
    KeyAndGuid();
    HandshakeDigest();
    Octets();
    Groups();
    TextEnd();
    Group(0x45, 0xB2, 0xBE, [0xC4, 0xEA]);
    Group(0xCF, 0x38, 0x59, [0x45, 0xB2, 0xBE] + [0xC4, 0xEA]);
    Group(0xF6, 0x46, 0x06, [0xCF, 0x38, 0x59] + ([0x45, 0xB2, 0xBE] + [0xC4, 0xEA]));
    Group(0x4F, 0x16, 0x90, [0xF6, 0x46, 0x06] + ([0xCF, 0x38, 0x59] + ([0x45, 0xB2, 0xBE] + [0xC4, 0xEA])));
    Group(0x2C, 0xC0, 0x62, [0x4F, 0x16, 0x90] + ([0xF6, 0x46, 0x06] +
          ([0xCF, 0x38, 0x59] + ([0x45, 0xB2, 0xBE] + [0xC4, 0xEA]))));
    Group(0xB3, 0x7A, 0x4F, [0x2C, 0xC0, 0x62] + ([0x4F, 0x16, 0x90] + ([0xF6, 0x46, 0x06] +
          ([0xCF, 0x38, 0x59] + ([0x45, 0xB2, 0xBE] + [0xC4, 0xEA])))));
    Text0();
    Text1();
    Text2();
    Text3();
    Text4();
    Text5();
    Joined();
  }
}
