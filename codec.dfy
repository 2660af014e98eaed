/**
 * Byte layouts of the structures the driver copies to and from the wire.
 * The driver runs on a big-endian 68000, so the in-memory layout of IP_HDR,
 * ENET_HDR and ARP is the network byte order of RFC 791 section 3.1 and
 * RFC 826; memcpy of a structure is its encoding here.
 */
module Codec {
  import opened StingTypes

  function Be16(x: bv16): seq<bv8>
  {
    [(x >> 8) as bv8, (x & 0xff) as bv8]
  }

  function GetBe16(s: seq<bv8>, i: nat): bv16
    requires i + 2 <= |s|
  {
    ((s[i] as bv16) << 8) | (s[i + 1] as bv16)
  }

  function Be32(x: bv32): seq<bv8>
  {
    [(x >> 24) as bv8, ((x >> 16) & 0xff) as bv8, ((x >> 8) & 0xff) as bv8, (x & 0xff) as bv8]
  }

  function GetBe32(s: seq<bv8>, i: nat): bv32
    requires i + 4 <= |s|
  {
    ((s[i] as bv32) << 24) | ((s[i + 1] as bv32) << 16) | ((s[i + 2] as bv32) << 8) | (s[i + 3] as bv32)
  }

  /** The two bytes of a 16-bit field, most significant first, read back as the field. */
  lemma GetBe16Be16(x: bv16)
    ensures |Be16(x)| == 2 && GetBe16(Be16(x), 0) == x
  {
  }

  /** The four bytes of a 32-bit field, most significant first, read back as the field. */
  lemma GetBe32Be32(x: bv32)
    ensures |Be32(x)| == 4 && GetBe32(Be32(x), 0) == x
  {
  }

  /** The 20 bytes memcpy copies out of an IP_HDR (RFC 791 section 3.1 layout). */
  function EncodeIpHdr(h: IpHdr): (r: seq<bv8>)
    ensures |r| == IP_HDR_LEN
  {
    IpHdrFront(h) + IpHdrBack(h)
  }

  /** Bytes 0 to 9: version and IHL, type of service, total length, identification, flags and fragment offset, time to live, protocol. */
  function IpHdrFront(h: IpHdr): (r: seq<bv8>)
    ensures |r| == 10
  {
    [((h.version as bv8) << 4) | (h.hdLen as bv8), h.tos]
    + Be16(h.length) + Be16(h.ident)
    + [((h.reserved as bv8) << 7) | ((h.dontFrg as bv8) << 6) | ((h.moreFrg as bv8) << 5)
         | ((h.fragOfst >> 8) as bv8),
       (h.fragOfst & 0xff) as bv8,
       h.ttl, h.protocol]
  }

  /** Bytes 10 to 19: header checksum, source address, destination address. */
  function IpHdrBack(h: IpHdr): (r: seq<bv8>)
    ensures |r| == 10
  {
    Be16(h.hdrChksum) + Be32(h.ipSrc) + Be32(h.ipDest)
  }

  /** The IP_HDR a cast `(IP_HDR *)p` sees in the 20 bytes `s` at p. */
  function DecodeIpHdr(s: seq<bv8>): IpHdr
    requires |s| == IP_HDR_LEN
  {
    IpHdr(
      version := (s[0] >> 4) as bv4,
      hdLen := (s[0] & 0xf) as bv4,
      tos := s[1],
      length := GetBe16(s, 2),
      ident := GetBe16(s, 4),
      reserved := (s[6] >> 7) as bv1,
      dontFrg := ((s[6] >> 6) & 1) as bv1,
      moreFrg := ((s[6] >> 5) & 1) as bv1,
      fragOfst := ((((s[6] & 0x1f) as bv16) << 8) | (s[7] as bv16)) as bv13,
      ttl := s[8],
      protocol := s[9],
      hdrChksum := GetBe16(s, 10),
      ipSrc := GetBe32(s, 12),
      ipDest := GetBe32(s, 16))
  }

  /** Reading back the 20 bytes of a header gives the header. */
  lemma EncodeDecodeIpHdr(h: IpHdr)
    ensures DecodeIpHdr(EncodeIpHdr(h)) == h
  {
  }

  lemma Be16GetBe16(s: seq<bv8>, i: nat)
    requires i + 2 <= |s|
    ensures Be16(GetBe16(s, i)) == s[i..i + 2]
  {
  }

  lemma Be32GetBe32(s: seq<bv8>, i: nat)
    requires i + 4 <= |s|
    ensures Be32(GetBe32(s, i)) == s[i..i + 4]
  {
  }

  lemma FirstIpByte(x: bv8)
    ensures ((((x >> 4) as bv4) as bv8) << 4) | (((x & 0xf) as bv4) as bv8) == x
  {
  }

  lemma FlagsIpBytes(x: bv8, y: bv8)
    ensures var f := ((((x & 0x1f) as bv16) << 8) | (y as bv16)) as bv13;
      && ((((x >> 7) as bv1) as bv8) << 7) | (((((x >> 6) & 1) as bv1) as bv8) << 6)
           | (((((x >> 5) & 1) as bv1) as bv8) << 5) | ((f >> 8) as bv8) == x
      && (f & 0xff) as bv8 == y
  {
  }

  lemma IpHeadBytes(s: seq<bv8>)
    requires |s| == IP_HDR_LEN
    ensures var h := DecodeIpHdr(s);
      [((h.version as bv8) << 4) | (h.hdLen as bv8), h.tos] == s[..2]
  {
    FirstIpByte(s[0]);
  }

  lemma IpFlagBytes(s: seq<bv8>)
    requires |s| == IP_HDR_LEN
    ensures var h := DecodeIpHdr(s);
      [((h.reserved as bv8) << 7) | ((h.dontFrg as bv8) << 6) | ((h.moreFrg as bv8) << 5)
         | ((h.fragOfst >> 8) as bv8), (h.fragOfst & 0xff) as bv8, h.ttl, h.protocol] == s[6..10]
  {
    FlagsIpBytes(s[6], s[7]);
  }

  /** Every 20-byte string is the layout of exactly one header. */
  lemma DecodeEncodeIpHdr(s: seq<bv8>)
    requires |s| == IP_HDR_LEN
    ensures EncodeIpHdr(DecodeIpHdr(s)) == s
  {
    IpHdrFrontBytes(s);
    IpHdrBackBytes(s);
    assert s == s[..10] + s[10..];
  }

  lemma IpHdrFrontBytes(s: seq<bv8>)
    requires |s| == IP_HDR_LEN
    ensures IpHdrFront(DecodeIpHdr(s)) == s[..10]
  {
    Be16GetBe16(s, 2);
    Be16GetBe16(s, 4);
    IpHeadBytes(s);
    IpFlagBytes(s);
    assert s[..10] == s[..2] + s[2..4] + s[4..6] + s[6..10];
  }

  lemma IpHdrBackBytes(s: seq<bv8>)
    requires |s| == IP_HDR_LEN
    ensures IpHdrBack(DecodeIpHdr(s)) == s[10..]
  {
    Be16GetBe16(s, 10);
    Be32GetBe32(s, 12);
    Be32GetBe32(s, 16);
    assert s[10..] == s[10..12] + s[12..16] + s[16..20];
  }

  /** ENET_HDR. */
  datatype EnetHdr = EnetHdr(destination: Mac, source: Mac, etherType: bv16)

  function EncodeEnetHdr(h: EnetHdr): (r: seq<bv8>)
    ensures |r| == ENET_HDR_LEN
  {
    h.destination + h.source + Be16(h.etherType)
  }

  lemma EncodeDecodeEnetHdr(h: EnetHdr)
    ensures DecodeEnetHdr(EncodeEnetHdr(h)) == h
  {
    var r := EncodeEnetHdr(h);
    assert r[..6] == h.destination && r[6..12] == h.source;
  }

  /** The ENET_HDR in the 14 bytes `s`. */
  function DecodeEnetHdr(s: seq<bv8>): EnetHdr
    requires |s| == ENET_HDR_LEN
  {
    EnetHdr(s[..6], s[6..12], GetBe16(s, 12))
  }

  /** ARP: an Ethernet/IPv4 ARP message, RFC 826 field order. */
  datatype ArpMsg = ArpMsg(
    hardwareSpace: bv16,
    protocolSpace: bv16,
    hardwareLen: bv8,
    protocolLen: bv8,
    opCode: bv16,
    srcEther: Mac,
    srcIp: bv32,
    destEther: Mac,
    destIp: bv32)

  function EncodeArp(a: ArpMsg): (r: seq<bv8>)
    ensures |r| == ARP_LEN
  {
    Be16(a.hardwareSpace) + Be16(a.protocolSpace) + [a.hardwareLen, a.protocolLen]
      + Be16(a.opCode) + a.srcEther + Be32(a.srcIp) + a.destEther + Be32(a.destIp)
  }

  lemma EncodeDecodeArp(a: ArpMsg)
    ensures DecodeArp(EncodeArp(a)) == a
  {
    ArpFixedFields(a);
    ArpAddressFields(a);
  }

  /** Hardware and protocol space and length, and the opcode, read back. */
  lemma ArpFixedFields(a: ArpMsg)
    ensures var b := DecodeArp(EncodeArp(a));
      && b.hardwareSpace == a.hardwareSpace && b.protocolSpace == a.protocolSpace
      && b.hardwareLen == a.hardwareLen && b.protocolLen == a.protocolLen && b.opCode == a.opCode
  {
  }

  /** The sender's and the target's addresses read back. */
  lemma ArpAddressFields(a: ArpMsg)
    ensures var b := DecodeArp(EncodeArp(a));
      && b.srcEther == a.srcEther && b.srcIp == a.srcIp && b.destEther == a.destEther && b.destIp == a.destIp
  {
    var r := EncodeArp(a);
    assert r[8..14] == a.srcEther && r[18..24] == a.destEther;
  }

  /** The ARP message in the 28 bytes `s`. */
  function DecodeArp(s: seq<bv8>): ArpMsg
    requires |s| == ARP_LEN
  {
    ArpMsg(GetBe16(s, 0), GetBe16(s, 2), s[4], s[5], GetBe16(s, 6),
           s[8..14], GetBe32(s, 14), s[18..24], GetBe32(s, 24))
  }

  /** ARP_PACKET: the Ethernet frame that carries an ARP message. */
  datatype ArpPacket = ArpPacket(eh: EnetHdr, arp: ArpMsg)

  function EncodeArpPacket(p: ArpPacket): (r: seq<bv8>)
    ensures |r| == ARP_PACKET_LEN
  {
    EncodeEnetHdr(p.eh) + EncodeArp(p.arp)
  }

  /** The packet on the wire reads back as its Ethernet header followed by its ARP message. */
  lemma EncodeDecodeArpPacket(p: ArpPacket)
    ensures var r := EncodeArpPacket(p);
      DecodeEnetHdr(r[..ENET_HDR_LEN]) == p.eh && DecodeArp(r[ENET_HDR_LEN..]) == p.arp
  {
    var r := EncodeArpPacket(p);
    assert r[..ENET_HDR_LEN] == EncodeEnetHdr(p.eh) && r[ENET_HDR_LEN..] == EncodeArp(p.arp);
    EncodeDecodeEnetHdr(p.eh);
    EncodeDecodeArp(p.arp);
  }
}
