/**
 * The decisions and frame layouts of process_output and send_arp: which
 * datagrams may be sent, to which next hop, and the exact bytes of the
 * Ethernet II frame and of the ARP packets the driver transmits.
 */
module Output {
  import opened StingTypes
  import opened Codec

  /** 14 + 20 + opt_length + pkt_length: the unpadded frame length. */
  function FrameLength(d: Dgram): nat {
    ENET_HDR_LEN + IP_HDR_LEN + |d.options| + |d.pktData|
  }

  /**
   * The length process_output computes as written: the sum is cast to
   * uint16 and stored in the int16 `enet_length`, so a sum of 0x8000 or
   * more becomes negative.
   */
  function EnetLengthAsWritten(d: Dgram): (r: int)
    requires d.WellFormed()
    ensures -0x8000 <= r < 0x8000
    ensures r == FrameLength(d) || r == FrameLength(d) - 0x10000
  {
    var u := FrameLength(d) % 0x10000;
    if u >= 0x8000 then u - 0x10000 else u
  }

  /** The length test as written: `enet_length > ETH_MAX_LEN` rejects. */
  predicate LengthPassesAsWritten(d: Dgram)
    requires d.WellFormed()
  {
    EnetLengthAsWritten(d) <= ETH_MAX_LEN
  }

  /**
   * A well-formed datagram with 32767 bytes of data passes the length test
   * as written, although its frame is far longer than ETH_MAX_LEN: the
   * following memcpy calls would then copy it past the end of `op`.
   */
  lemma OversizeDgramPassesAsWritten(h: IpHdr)
    ensures var d := Dgram(h, [], seq(INT16_MAX, _ => 0), 0, 0);
      d.WellFormed() && LengthPassesAsWritten(d) && FrameLength(d) > ETH_MAX_LEN
  {
    var d := Dgram(h, [], seq(INT16_MAX, _ => 0), 0, 0);
    assert FrameLength(d) == 32801;
  }

  /** The length test as intended: the whole frame fits in ETH_MAX_LEN bytes. */
  predicate LengthOk(d: Dgram) {
    FrameLength(d) <= ETH_MAX_LEN
  }

  /** Wherever the int16 sum does not wrap, the test as written and as intended agree. */
  lemma LengthTestsAgreeWithoutWrap(d: Dgram)
    requires d.WellFormed() && FrameLength(d) < 0x8000
    ensures LengthPassesAsWritten(d) <==> LengthOk(d)
  {
  }

  /** "no ip packets to host 0 or ff": the host part is all zeros or exactly 0xff. */
  predicate BadHost(dest: bv32, subMask: bv32) {
    (dest & !subMask) == 0 || (dest & !subMask) == 0xff
  }

  predicate OnSubnet(a: bv32, ipAddr: bv32, subMask: bv32) {
    a & subMask == ipAddr & subMask
  }

  /** The address to resolve: the destination if it is on our subnet, else the gateway if that is. */
  function NextHop(d: Dgram, ipAddr: bv32, subMask: bv32): (r: Option<bv32>)
    ensures r.Some? ==> OnSubnet(r.value, ipAddr, subMask)
    ensures r.Some? ==> r.value == d.hdr.ipDest || r.value == d.ipGateway
    ensures OnSubnet(d.hdr.ipDest, ipAddr, subMask) ==> r == Some(d.hdr.ipDest)
    ensures r.None? <==> !OnSubnet(d.hdr.ipDest, ipAddr, subMask) && !OnSubnet(d.ipGateway, ipAddr, subMask)
  {
    if OnSubnet(d.hdr.ipDest, ipAddr, subMask) then Some(d.hdr.ipDest)
    else if OnSubnet(d.ipGateway, ipAddr, subMask) then Some(d.ipGateway)
    else None
  }

  /** The outcome of process_output's three checks, taken in this order. */
  datatype Verdict = TooLong | HostRejected | Unreachable | Deliver(hop: bv32)

  function Classify(d: Dgram, ipAddr: bv32, subMask: bv32): (v: Verdict)
    ensures v.TooLong? <==> !LengthOk(d)
    ensures v.HostRejected? <==> LengthOk(d) && BadHost(d.hdr.ipDest, subMask)
    ensures v.Unreachable? <==> LengthOk(d) && !BadHost(d.hdr.ipDest, subMask) && NextHop(d, ipAddr, subMask).None?
    ensures v.Deliver? ==>
      && LengthOk(d) && !BadHost(d.hdr.ipDest, subMask)
      && NextHop(d, ipAddr, subMask).Some? && NextHop(d, ipAddr, subMask).value == v.hop && OnSubnet(v.hop, ipAddr, subMask)
  {
    if !LengthOk(d) then TooLong
    else if BadHost(d.hdr.ipDest, subMask) then HostRejected
    else match NextHop(d, ipAddr, subMask)
      case None => Unreachable
      case Some(hop) => Deliver(hop)
  }

  /** The frame length actually written: padded up to ETH_MIN_LEN. */
  function PaddedLength(d: Dgram): nat {
    if FrameLength(d) < ETH_MIN_LEN then ETH_MIN_LEN else FrameLength(d)
  }

  /**
   * The frame process_output builds in `op` for a cache hit: Ethernet
   * header, IP header, options, data, and zero bytes up to ETH_MIN_LEN.
   */
  function IpFrame(dest: Mac, src: Mac, d: Dgram): (r: seq<bv8>)
    requires LengthOk(d)
    ensures |r| == PaddedLength(d) && ETH_MIN_LEN <= |r| <= ETH_MAX_LEN
  {
    EncodeEnetHdr(EnetHdr(dest, src, ENET_TYPE_IP)) + EncodeIpHdr(d.hdr) + d.options + d.pktData
      + seq(PaddedLength(d) - FrameLength(d), _ => 0)
  }

  /**
   * The frame read back: an Ethernet II header from `src` to `dest` for
   * IP, the datagram's header, its options and data at their offsets, and
   * zero padding after them.
   */
  lemma IpFrameLayout(dest: Mac, src: Mac, d: Dgram)
    requires LengthOk(d)
    ensures var r := IpFrame(dest, src, d);
      && DecodeEnetHdr(r[..ENET_HDR_LEN]) == EnetHdr(dest, src, ENET_TYPE_IP)
      && DecodeIpHdr(r[ENET_HDR_LEN..ENET_HDR_LEN + IP_HDR_LEN]) == d.hdr
      && r[ENET_HDR_LEN + IP_HDR_LEN..FrameLength(d)] == d.options + d.pktData
      && forall i :: FrameLength(d) <= i < |r| ==> r[i] == 0
  {
    var eh := EncodeEnetHdr(EnetHdr(dest, src, ENET_TYPE_IP));
    var ih := EncodeIpHdr(d.hdr);
    var r := IpFrame(dest, src, d);
    assert r[..ENET_HDR_LEN] == eh;
    EncodeDecodeEnetHdr(EnetHdr(dest, src, ENET_TYPE_IP));
    assert r[ENET_HDR_LEN..ENET_HDR_LEN + IP_HDR_LEN] == ih;
    EncodeDecodeIpHdr(d.hdr);
    assert r[ENET_HDR_LEN + IP_HDR_LEN..FrameLength(d)] == d.options + d.pktData;
  }

  /** The fields of arp_enet_pkt that install() sets once and nothing overwrites. */
  predicate TemplateOk(t: ArpPacket) {
    && t.eh.etherType == ENET_TYPE_ARP
    && t.arp.hardwareSpace == ARP_HARD_ETHER && t.arp.hardwareLen == 6
    && t.arp.protocolSpace == ENET_TYPE_IP && t.arp.protocolLen == 4
  }

  /** arp_enet_pkt as the driver keeps it: its fixed fields always as install() set them. */
  type ArpTemplate = t: ArpPacket | TemplateOk(t) witness InitialTemplate()

  /** arp_enet_pkt after install(): zeroed, then the fixed fields set. */
  function InitialTemplate(): (t: ArpPacket)
    ensures TemplateOk(t)
  {
    ArpPacket(EnetHdr([0, 0, 0, 0, 0, 0], [0, 0, 0, 0, 0, 0], ENET_TYPE_ARP),
              ArpMsg(ARP_HARD_ETHER, ENET_TYPE_IP, 6, 4, 0,
                     [0, 0, 0, 0, 0, 0], 0, [0, 0, 0, 0, 0, 0], 0))
  }

  /** process_output on a cache miss: a broadcast request for `hop`. */
  function AsRequest(t: ArpPacket, hop: bv32): (r: ArpPacket)
    ensures TemplateOk(t) ==> TemplateOk(r)
  {
    t.(eh := t.eh.(destination := BROADCAST_ADDR),
       arp := t.arp.(opCode := ARP_OP_REQ, destEther := BROADCAST_ADDR, destIp := hop))
  }

  /** process_arp answering `req`: a reply addressed to the requester. */
  function AsReply(t: ArpPacket, req: ArpMsg): (r: ArpPacket)
    ensures TemplateOk(t) ==> TemplateOk(r)
  {
    t.(eh := t.eh.(destination := req.srcEther),
       arp := t.arp.(opCode := ARP_OP_ANS, destEther := req.srcEther, destIp := req.srcIp))
  }

  /** send_arp: our own addresses as the sender. */
  function WithSender(t: ArpPacket, mac: Mac, ipAddr: bv32): (r: ArpPacket)
    ensures TemplateOk(t) ==> TemplateOk(r)
  {
    t.(eh := t.eh.(source := mac), arp := t.arp.(srcEther := mac, srcIp := ipAddr))
  }

  /**
   * The request sent on a cache miss, read back from the wire: broadcast,
   * opcode REQ, asking for `hop`, from our addresses, with the
   * Ethernet/IPv4 header fields that process_arp requires.
   */
  lemma RequestOnWire(t: ArpPacket, hop: bv32, mac: Mac, ipAddr: bv32)
    requires TemplateOk(t)
    ensures var w := EncodeArpPacket(WithSender(AsRequest(t, hop), mac, ipAddr));
      var eh, a := DecodeEnetHdr(w[..ENET_HDR_LEN]), DecodeArp(w[ENET_HDR_LEN..]);
      && |w| == ARP_PACKET_LEN
      && eh == EnetHdr(BROADCAST_ADDR, mac, ENET_TYPE_ARP)
      && a.opCode == ARP_OP_REQ && a.destIp == hop && a.destEther == BROADCAST_ADDR
      && a.srcEther == mac && a.srcIp == ipAddr
      && a.hardwareSpace == ARP_HARD_ETHER && a.hardwareLen == 6
      && a.protocolSpace == ENET_TYPE_IP && a.protocolLen == 4
  {
    EncodeDecodeArpPacket(WithSender(AsRequest(t, hop), mac, ipAddr));
  }

  /**
   * The reply to a request `req` for our address, read back from the wire:
   * sent to the requester, opcode ANS, giving our hardware address for the
   * IP address it asked about.
   */
  lemma ReplyOnWire(t: ArpPacket, req: ArpMsg, mac: Mac, ipAddr: bv32)
    requires TemplateOk(t) && req.opCode == ARP_OP_REQ && req.destIp == ipAddr
    ensures var w := EncodeArpPacket(WithSender(AsReply(t, req), mac, ipAddr));
      var eh, a := DecodeEnetHdr(w[..ENET_HDR_LEN]), DecodeArp(w[ENET_HDR_LEN..]);
      && eh == EnetHdr(req.srcEther, mac, ENET_TYPE_ARP)
      && a.opCode == ARP_OP_ANS && a.destEther == req.srcEther && a.destIp == req.srcIp
      && a.srcEther == mac && a.srcIp == req.destIp
      && a.hardwareSpace == ARP_HARD_ETHER && a.protocolSpace == ENET_TYPE_IP
  {
    EncodeDecodeArpPacket(WithSender(AsReply(t, req), mac, ipAddr));
  }
}
