/** Building the packets that are replayed and reading captured ones. Addresses are kept as their
  four octets in the order of the wire. The transport checksums are an input: the program's own
  are no function of the packet alone.
 */
module Packet {
  import opened Bytes
  import opened Checksum

  type Addr = a: seq<byte> | |a| == 4 witness [0, 0, 0, 0]

  const TCP: byte := 6
  const UDP: byte := 17

  datatype Info = Info(src: Addr, dst: Addr, srcPort: uint16, dstPort: uint16, protocol: byte, payload: seq<byte>)

  function Big(n: uint16): seq<byte> {
    [n / 256, n % 256]
  }

  function Port(b0: byte, b1: byte): uint16 {
    b0 as int * 256 + b1 as int
  }

  /** The length of the transport header. */
  function Transport(protocol: byte): nat {
    if protocol == TCP then 20 else if protocol == UDP then 8 else 0
  }

  // ---------------------------------------------------------------- building

  /** The header with its check field zero. */
  function IpHeader(info: Info, total: uint16): (h: seq<byte>)
    ensures |h| == 20 && h[10] == 0 && h[11] == 0
    ensures h[0] == 0x45 && h[9] == info.protocol && h[12..16] == info.src && h[16..20] == info.dst
  {
    [0x45, 0] + Big(total) + Big(12345) + [0, 0, 64, info.protocol, 0, 0] + info.src + info.dst
  }

  function TcpHeader(info: Info, check: uint16): (h: seq<byte>)
    ensures |h| == 20 && h[..2] == Big(info.srcPort) && h[2..4] == Big(info.dstPort) && h[12] / 16 == 5
  {
    Big(info.srcPort) + Big(info.dstPort) + [0, 0, 3, 232, 0, 0, 3, 232, 0x50, 0x18] + Big(8192) + Big(check) + [0, 0]
  }

  function UdpHeader(info: Info, check: uint16): (h: seq<byte>)
    ensures |h| == 8 && h[..2] == Big(info.srcPort) && h[2..4] == Big(info.dstPort)
  {
    Big(info.srcPort) + Big(info.dstPort) + Big((8 + |info.payload|) % 0x10000) + Big(check)
  }

  function TransportHeader(info: Info, check: uint16): (h: seq<byte>)
    ensures |h| == Transport(info.protocol)
    ensures |h| > 0 ==> h[..2] == Big(info.srcPort) && h[2..4] == Big(info.dstPort)
    ensures info.protocol == TCP ==> h[12] / 16 == 5
  {
    if info.protocol == TCP then TcpHeader(info, check)
    else if info.protocol == UDP then UdpHeader(info, check)
    else []
  }

  /** The number of octets of the packet, cut to sixteen bits. */
  function TotalLength(info: Info): uint16 {
    (20 + Transport(info.protocol) + |info.payload|) % 0x10000
  }

  /** The header with the checksum in its field. */
  function Header(info: Info): (h: seq<byte>)
    ensures |h| == 20
  {
    var h := IpHeader(info, TotalLength(info));
    Stored(h, 10, 0xFFFF - Folded(Sum(h)))
  }

  function Built(info: Info, check: uint16): (p: seq<byte>)
    ensures |p| == 20 + Transport(info.protocol) + |info.payload|
  {
    Header(info) + TransportHeader(info, check) + info.payload
  }

  method BuildPacket(info: Info, check: uint16) returns (packet: seq<byte>)
    ensures packet == Built(info, check)
  {
    var total: uint16 := 20;
    if info.protocol == TCP {
      total := total + 20;
    } else if info.protocol == UDP {
      total := total + 8;
    }
    total := (total + |info.payload|) % 0x10000;
    var header := IpHeader(info, total);
    var c := HeaderChecksum(header);
    packet := Stored(header, 10, c);
    if info.protocol == TCP {
      packet := packet + TcpHeader(info, check);
    } else if info.protocol == UDP {
      packet := packet + UdpHeader(info, check);
    }
    packet := packet + info.payload;
  }

  // ---------------------------------------------------------------- parsing

  /** Whether the packet was accepted, and the record afterwards. */
  datatype Outcome = Outcome(ok: bool, info: Info)

  function Assigned(info: Info, rest: seq<byte>): Info {
    if rest == [] then info else info.(payload := rest)
  }

  function ParsedTcp(t: seq<byte>, info: Info): Outcome {
    if |t| < 20 then Outcome(false, info) else
      var ports := info.(srcPort := Port(t[0], t[1]), dstPort := Port(t[2], t[3]));
      var n := t[12] / 16 * 4;
      if |t| < n then Outcome(false, ports) else Outcome(true, Assigned(ports, t[n..]))
  }

  function ParsedUdp(t: seq<byte>, info: Info): Outcome {
    if |t| < 8 then Outcome(false, info) else
      Outcome(true, Assigned(info.(srcPort := Port(t[0], t[1]), dstPort := Port(t[2], t[3])), t[8..]))
  }

  function Parsed(p: seq<byte>, info: Info): Outcome {
    if |p| < 20 then Outcome(false, info) else
      var named := info.(src := p[12..16], dst := p[16..20], protocol := p[9]);
      var n := p[0] % 16 * 4;
      if |p| < n then Outcome(false, named)
      else if p[9] == TCP then ParsedTcp(p[n..], named)
      else if p[9] == UDP then ParsedUdp(p[n..], named)
      else Outcome(true, named.(srcPort := 0, dstPort := 0, payload := p[n..]))
  }

  /** The length of the IP header that a packet claims, which may be less than the twenty octets
      read from it, and of the transport header behind it. */
  function IpLength(p: seq<byte>): nat
    requires p != []
  {
    p[0] % 16 * 4
  }

  function TransportLength(p: seq<byte>): nat
    requires |p| >= 20
  {
    var n := IpLength(p);
    if p[9] == TCP then if n + 12 < |p| then p[n + 12] / 16 * 4 else 0
    else if p[9] == UDP then 8 else 0
  }

  /** The octets that have to be there: a whole IP header, both headers as long as they claim to be,
      and the smallest TCP header. */
  predicate Acceptable(p: seq<byte>) {
    && |p| >= 20 && |p| >= IpLength(p) + TransportLength(p)
    && (p[9] == TCP ==> |p| >= IpLength(p) + 20)
  }

  /** What any octets give: they are accepted exactly if they are long enough; then addresses and
      protocol are the header's, ports those of the transport header, and the payload is all that
      lies behind both headers, except that nothing behind a TCP or UDP header leaves the old
      payload. */
  lemma ParsedExactly(p: seq<byte>, info: Info)
    ensures var o := Parsed(p, info);
            && (o.ok <==> Acceptable(p))
            && (|p| < 20 ==> o.info == info) && (!o.ok ==> o.info.payload == info.payload)
            && (o.ok ==>
                  var n, m := IpLength(p), TransportLength(p);
                  && o.info.src == p[12..16] && o.info.dst == p[16..20] && o.info.protocol == p[9]
                  && (Transport(p[9]) > 0 ==>
                        Reads(p, n, o.info.srcPort) && Reads(p, n + 2, o.info.dstPort))
                  && (Transport(p[9]) == 0 ==> o.info.srcPort == 0 && o.info.dstPort == 0)
                  && o.info.payload == if Transport(p[9]) > 0 && |p| == n + m then info.payload else p[n + m..])
  {
    if Acceptable(p) {
      var n, m := IpLength(p), TransportLength(p);
      assert p[n..][m..] == p[n + m..];
    }
  }

  /** The record that the parser fills in. */
  class Record {
    var src: Addr
    var dst: Addr
    var srcPort: uint16
    var dstPort: uint16
    var protocol: byte
    var payload: seq<byte>

    function View(): Info
      reads this
    {
      Info(src, dst, srcPort, dstPort, protocol, payload)
    }

    constructor ()
      ensures View() == Info([0, 0, 0, 0], [0, 0, 0, 0], 0, 0, 0, [])
    {
      src, dst := [0, 0, 0, 0], [0, 0, 0, 0];
      srcPort, dstPort, protocol, payload := 0, 0, 0, [];
    }

    method ParseIp(p: seq<byte>) returns (ok: bool)
      modifies this
      ensures Outcome(ok, View()) == Parsed(p, old(View()))
    {
      if |p| < 20 {
        return false;
      }
      src := p[12..16];
      dst := p[16..20];
      protocol := p[9];
      var headerLength := p[0] % 16 * 4;
      if |p| < headerLength {
        return false;
      }
      var rest := p[headerLength..];
      if protocol == TCP {
        ok := ParseTcp(rest);
      } else if protocol == UDP {
        ok := ParseUdp(rest);
      } else {
        srcPort, dstPort := 0, 0;
        payload := rest;
        ok := true;
      }
    }

    method ParseTcp(t: seq<byte>) returns (ok: bool)
      modifies this
      ensures Outcome(ok, View()) == ParsedTcp(t, old(View()))
    {
      if |t| < 20 {
        return false;
      }
      srcPort := Port(t[0], t[1]);
      dstPort := Port(t[2], t[3]);
      var headerLength := t[12] / 16 * 4;
      if |t| < headerLength {
        return false;
      }
      if |t| - headerLength > 0 {
        payload := t[headerLength..];
      }
      ok := true;
    }

    method ParseUdp(t: seq<byte>) returns (ok: bool)
      modifies this
      ensures Outcome(ok, View()) == ParsedUdp(t, old(View()))
    {
      if |t| < 8 {
        return false;
      }
      srcPort := Port(t[0], t[1]);
      dstPort := Port(t[2], t[3]);
      if |t| - 8 > 0 {
        payload := t[8..];
      }
      ok := true;
    }
  }

  // ---------------------------------------------------------------- building and parsing

  /** The header of every packet built checks, and its fields are where they belong. */
  lemma HeaderChecks(info: Info)
    ensures var h := Header(info);
            && Folded(Sum(h)) == 0xFFFF
            && h[0] == 0x45 && h[2..4] == Big(TotalLength(info)) && h[9] == info.protocol
            && h[12..16] == info.src && h[16..20] == info.dst
  {
    var h := IpHeader(info, TotalLength(info));
    StoredChecks(h, 10);
    assert Header(info)[12..16] == h[12..16] && Header(info)[16..20] == h[16..20];
    assert Header(info)[2..4] == h[2..4] == Big(TotalLength(info));
  }

  lemma BigPort(n: uint16, b: seq<byte>)
    requires |b| >= 2 && b[..2] == Big(n)
    ensures Port(b[0], b[1]) == n
  {
    assert b[0] == b[..2][0] && b[1] == b[..2][1];
  }

  /** The length field is the length of the packet exactly for packets shorter than 2^16. */
  lemma LengthFieldExactly(info: Info, check: uint16)
    ensures var p := Built(info, check);
            Port(p[2], p[3]) == |p| <==> |p| < 0x10000
  {
    var p := Built(info, check);
    HeaderChecks(info);
    assert Header(info)[2..4][0] == p[2] && Header(info)[2..4][1] == p[3];
    BigPort(TotalLength(info), Header(info)[2..4]);
  }

  /** A number of sixteen bits, the most significant octet first. */
  predicate Reads(p: seq<byte>, i: nat, n: int)
    requires i + 2 <= |p|
  {
    n == 256 * (p[i] as int) + p[i + 1] as int
  }

  /** The header fields that every packet built has, each at its octets. */
  lemma IpFields(info: Info, check: uint16)
    ensures var p := Built(info, check);
            && p[0] == 0x45 && p[1] == 0 && Reads(p, 2, |p| % 0x10000) && Reads(p, 4, 12345)
            && p[6] == 0 && p[7] == 0 && p[8] == 64 && p[9] == info.protocol
            && p[12..16] == info.src && p[16..20] == info.dst
  {
    HeaderBack(info, check);
    var h, p := Header(info), Built(info, check);
    assert forall i | 0 <= i < 20 :: p[i] == h[i];
    HeaderChecks(info);
    assert h[2] == h[2..4][0] && h[3] == h[2..4][1];
  }

  lemma TcpFields(info: Info, check: uint16)
    requires info.protocol == TCP
    ensures var p := Built(info, check);
            && Reads(p, 20, info.srcPort) && Reads(p, 22, info.dstPort)
            && Reads(p, 24, 0) && Reads(p, 26, 1000) && Reads(p, 28, 0) && Reads(p, 30, 1000)
            && p[32] == 0x50 && p[33] == 0x18 && Reads(p, 34, 8192) && Reads(p, 36, check) && Reads(p, 38, 0)
            && p[40..] == info.payload
  {
    HeaderBack(info, check);
    Behind(Built(info, check), TcpHeader(info, check), info.payload);
  }

  /** The length field of a UDP packet is the length of its header and its payload, cut to sixteen
      bits. */
  lemma UdpFields(info: Info, check: uint16)
    requires info.protocol == UDP
    ensures var p := Built(info, check);
            && Reads(p, 20, info.srcPort) && Reads(p, 22, info.dstPort)
            && Reads(p, 24, (|p| - 20) % 0x10000) && Reads(p, 26, check) && p[28..] == info.payload
  {
    HeaderBack(info, check);
    Behind(Built(info, check), UdpHeader(info, check), info.payload);
  }

  lemma Behind(p: seq<byte>, t: seq<byte>, u: seq<byte>)
    requires 20 <= |p| && p[20..] == t + u
    ensures p[20 + |t|..] == u && forall i | 20 <= i < 20 + |t| :: p[i] == t[i - 20]
  {
    assert p[20 + |t|..] == p[20..][|t|..];
    assert forall i | 20 <= i < 20 + |t| :: p[i] == p[20..][i - 20];
  }

  lemma TcpBack(info: Info, check: uint16, before: Info)
    requires info.protocol == TCP
    ensures ParsedTcp(TransportHeader(info, check) + info.payload, before) ==
            Outcome(true, Assigned(before.(srcPort := info.srcPort, dstPort := info.dstPort), info.payload))
  {
    var h := TransportHeader(info, check);
    BigPort(info.srcPort, h);
    BigPort(info.dstPort, h[2..4]);
    assert (h + info.payload)[20..] == info.payload;
  }

  lemma UdpBack(info: Info, check: uint16, before: Info)
    requires info.protocol == UDP
    ensures ParsedUdp(TransportHeader(info, check) + info.payload, before) ==
            Outcome(true, Assigned(before.(srcPort := info.srcPort, dstPort := info.dstPort), info.payload))
  {
    var h := TransportHeader(info, check);
    BigPort(info.srcPort, h);
    BigPort(info.dstPort, h[2..4]);
    assert (h + info.payload)[8..] == info.payload;
  }

  /** What the parser takes from the header of a built packet. */
  lemma HeaderBack(info: Info, check: uint16)
    ensures var p := Built(info, check);
            && |p| >= 20 && p[0] % 16 * 4 == 20 && p[9] == info.protocol
            && p[12..16] == info.src && p[16..20] == info.dst
            && p[20..] == TransportHeader(info, check) + info.payload
  {
    HeaderChecks(info);
    Front(Header(info), TransportHeader(info, check), info.payload);
  }

  lemma Front(h: seq<byte>, t: seq<byte>, u: seq<byte>)
    requires |h| == 20
    ensures var p := h + t + u;
            && p[0] == h[0] && p[9] == h[9] && p[12..16] == h[12..16] && p[16..20] == h[16..20]
            && p[20..] == t + u
  {
  }

  /** Parsing a built packet into any record recovers the addresses, the protocol and, for TCP and
      UDP, the ports. It recovers the payload exactly when the payload is not empty, the record
      held none, or the protocol is another one: an empty TCP or UDP payload leaves the old one in
      the record. */
  lemma ParseBuilt(info: Info, check: uint16, before: Info)
    ensures var o := Parsed(Built(info, check), before);
            && o.ok && o.info.src == info.src && o.info.dst == info.dst && o.info.protocol == info.protocol
            && (Transport(info.protocol) > 0 ==> o.info.srcPort == info.srcPort && o.info.dstPort == info.dstPort)
            && (Transport(info.protocol) == 0 ==> o.info.srcPort == 0 && o.info.dstPort == 0)
            && (o.info.payload == info.payload <==>
                Transport(info.protocol) == 0 || info.payload != [] || before.payload == [])
  {
    var named := before.(src := info.src, dst := info.dst, protocol := info.protocol);
    HeaderBack(info, check);
    if info.protocol == TCP {
      TcpBack(info, check, named);
    } else if info.protocol == UDP {
      UdpBack(info, check, named);
    } else {
      assert [] + info.payload == info.payload;
    }
  }

  /** An empty TCP payload parsed into a record that holds one. */
  lemma StalePayload()
    ensures var info := Info([10, 0, 0, 1], [10, 0, 0, 2], 80, 1024, TCP, []);
            Parsed(Built(info, 0), info.(payload := [1])).info.payload != info.payload
  {
    var info := Info([10, 0, 0, 1], [10, 0, 0, 2], 80, 1024, TCP, []);
    ParseBuilt(info, 0, info.(payload := [1]));
  }

  /** Built and parsed into a fresh record, a packet is the same again. */
  method RoundTrip(info: Info, check: uint16) returns (ok: bool, got: Info)
    ensures ok && got == if Transport(info.protocol) > 0 then info else info.(srcPort := 0, dstPort := 0)
  {
    var packet := BuildPacket(info, check);
    var record := new Record();
    ghost var before := record.View();
    ok := record.ParseIp(packet);
    ParseBuilt(info, check, before);
    got := record.View();
  }
}
