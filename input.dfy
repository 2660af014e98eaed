/**
 * The validation and parsing process_ip and process_arp apply to a
 * received frame. `buf` is the driver's receive buffer (`ip`, an
 * ENET_PACKET of ETH_MAX_LEN bytes) and `length` the byte count the
 * transport reported for the frame now in it.
 */
module Input {
  import opened StingTypes
  import opened Codec
  import opened Output

  /** The IP header a cast of `ip.ed` sees: the bytes after the Ethernet header. */
  function ReceivedHdr(buf: seq<bv8>): IpHdr
    requires |buf| >= ENET_HDR_LEN + IP_HDR_LEN
  {
    DecodeIpHdr(buf[ENET_HDR_LEN..ENET_HDR_LEN + IP_HDR_LEN])
  }

  /** IHL in bytes. */
  function HeaderBytes(h: IpHdr): nat {
    h.hdLen as nat * 4
  }

  /**
   * process_ip's checks as written: the frame length window, then the IP
   * Total Length against `length`, which counts the 14-byte Ethernet
   * header too, then the header length.
   */
  predicate IpChecksAsWritten(h: IpHdr, length: int) {
    && ETH_MIN_LEN <= length <= ETH_MAX_LEN
    && h.length as nat <= length
    && IP_HDR_LEN <= HeaderBytes(h) <= h.length as nat
  }

  /**
   * A minimum-size frame whose IP Total Length equals the frame length
   * passes the checks as written, yet its datagram would end 14 bytes past
   * the bytes received: process_ip copies stale buffer contents into it.
   */
  lemma StaleBytesAcceptedAsWritten(h: IpHdr)
    requires h.hdLen == 5 && h.length == 60
    ensures IpChecksAsWritten(h, 60)
    ensures ENET_HDR_LEN + h.length as nat > 60
  {
  }

  /** process_ip's checks as intended: the whole datagram lies inside the received frame. */
  predicate IpChecksOk(h: IpHdr, length: int) {
    && ETH_MIN_LEN <= length <= ETH_MAX_LEN
    && h.length as nat <= length - ENET_HDR_LEN
    && IP_HDR_LEN <= HeaderBytes(h) <= h.length as nat
  }

  /** The intended checks reject exactly the frames whose datagram runs past their end. */
  lemma IntendedChecksNarrowAsWritten(h: IpHdr, length: int)
    ensures IpChecksOk(h, length) <==> IpChecksAsWritten(h, length) && ENET_HDR_LEN + h.length as nat <= length
  {
  }

  /**
   * The datagram process_ip builds from an accepted frame: the header,
   * then hd_len*4 - 20 option bytes and Total Length - hd_len*4 data bytes
   * that follow it, the kernel's time-to-live stamp, and no gateway (the
   * driver leaves ip_gateway unset; it is 0 here).
   */
  function ParseIp(buf: seq<bv8>, length: int, stamp: uint32): (r: Option<Dgram>)
    requires |buf| == ETH_MAX_LEN
    ensures r.Some? <==> IpChecksOk(ReceivedHdr(buf), length)
    ensures r.Some? ==>
      var h := ReceivedHdr(buf);
      && r.value.hdr == h && r.value.WellFormed()
      && |r.value.options| == HeaderBytes(h) - IP_HDR_LEN
      && |r.value.pktData| == h.length as nat - HeaderBytes(h)
      && ENET_HDR_LEN + h.length as nat <= length
      && r.value.timeout == stamp && r.value.ipGateway == 0
  {
    var h := ReceivedHdr(buf);
    if !IpChecksOk(h, length) then None
    else
      var optEnd := ENET_HDR_LEN + HeaderBytes(h);
      var end := ENET_HDR_LEN + h.length as nat;
      Some(Dgram(h, buf[ENET_HDR_LEN + IP_HDR_LEN..optEnd], buf[optEnd..end], stamp, 0))
  }

  /**
   * The datagram holds exactly the bytes of the frame after the Ethernet
   * header up to the IP Total Length: nothing is lost, reordered or
   * taken from outside the received frame.
   */
  lemma ParsedIsFrameBytes(buf: seq<bv8>, length: int, stamp: uint32)
    requires |buf| == ETH_MAX_LEN && ParseIp(buf, length, stamp).Some?
    ensures var d, h := ParseIp(buf, length, stamp).value, ReceivedHdr(buf);
      EncodeIpHdr(h) + d.options + d.pktData == buf[ENET_HDR_LEN..ENET_HDR_LEN + h.length as nat]
  {
    var h := ReceivedHdr(buf);
    var d := ParseIp(buf, length, stamp).value;
    var optEnd, end := ENET_HDR_LEN + HeaderBytes(h), ENET_HDR_LEN + h.length as nat;
    assert d.options == buf[ENET_HDR_LEN + IP_HDR_LEN..optEnd] && d.pktData == buf[optEnd..end];
    ParsedBytes(buf, h, optEnd, end);
  }

  /** The header, options and data slices of an accepted frame put back together. */
  lemma ParsedBytes(buf: seq<bv8>, h: IpHdr, optEnd: nat, end: nat)
    requires |buf| == ETH_MAX_LEN && h == ReceivedHdr(buf)
    requires ENET_HDR_LEN + IP_HDR_LEN <= optEnd <= end <= |buf|
    ensures EncodeIpHdr(h) + buf[ENET_HDR_LEN + IP_HDR_LEN..optEnd] + buf[optEnd..end] == buf[ENET_HDR_LEN..end]
  {
    DecodeEncodeIpHdr(buf[ENET_HDR_LEN..ENET_HDR_LEN + IP_HDR_LEN]);
    SliceThirds(buf, ENET_HDR_LEN, ENET_HDR_LEN + IP_HDR_LEN, optEnd, end);
  }

  lemma SliceThirds(s: seq<bv8>, i: nat, j: nat, k: nat, l: nat)
    requires i <= j <= k <= l <= |s|
    ensures s[i..l] == s[i..j] + s[j..k] + s[k..l]
  {
    assert s[i..l] == s[i..j] + s[j..l];
    assert s[j..l] == s[j..k] + s[k..l];
  }

  /**
   * The header fields of a datagram agree with its blocks, as the STinG
   * kernel fills them in before handing the datagram to a port.
   */
  predicate HeaderMatches(d: Dgram) {
    && HeaderBytes(d.hdr) == IP_HDR_LEN + |d.options|
    && d.hdr.length as nat == IP_HDR_LEN + |d.options| + |d.pktData|
  }

  /**
   * What one driver sends, another accepts unchanged: the frame
   * process_output writes for a datagram, received into a buffer whose
   * remaining bytes are anything, parses back to the same header, options
   * and data.
   */
  lemma FrameRoundTrip(dest: Mac, src: Mac, d: Dgram, stale: seq<bv8>, stamp: uint32)
    requires LengthOk(d) && HeaderMatches(d)
    requires |IpFrame(dest, src, d)| + |stale| == ETH_MAX_LEN
    ensures var f := IpFrame(dest, src, d);
      ParseIp(f + stale, |f|, stamp) == Some(d.(timeout := stamp, ipGateway := 0))
  {
    var f := IpFrame(dest, src, d);
    FrameHoldsDgram(dest, src, d, stale);
    ParseOfAccepted(f + stale, |f|, d, stamp);
  }

  /** The received buffer holds the datagram's header, options and data where process_ip looks for them. */
  lemma FrameHoldsDgram(dest: Mac, src: Mac, d: Dgram, stale: seq<bv8>)
    requires LengthOk(d)
    ensures var buf := IpFrame(dest, src, d) + stale;
      && |buf| >= FrameLength(d) && ReceivedHdr(buf) == d.hdr
      && buf[ENET_HDR_LEN + IP_HDR_LEN..ENET_HDR_LEN + IP_HDR_LEN + |d.options|] == d.options
      && buf[ENET_HDR_LEN + IP_HDR_LEN + |d.options|..FrameLength(d)] == d.pktData
  {
    var f := IpFrame(dest, src, d);
    IpFrameLayout(dest, src, d);
    PrefixKept(f, stale, ENET_HDR_LEN + IP_HDR_LEN, FrameLength(d));
    PrefixKept(f, stale, ENET_HDR_LEN, ENET_HDR_LEN + IP_HDR_LEN);
    SplitBlocks(f + stale, ENET_HDR_LEN + IP_HDR_LEN, d.options, d.pktData);
  }

  lemma PrefixKept(f: seq<bv8>, stale: seq<bv8>, i: nat, j: nat)
    requires i <= j <= |f|
    ensures (f + stale)[i..j] == f[i..j]
  {
  }

  /** A buffer that holds a datagram's header and blocks at their places parses back to it. */
  lemma ParseOfAccepted(buf: seq<bv8>, length: int, d: Dgram, stamp: uint32)
    requires |buf| == ETH_MAX_LEN && ReceivedHdr(buf) == d.hdr && HeaderMatches(d)
    requires ETH_MIN_LEN <= length <= ETH_MAX_LEN && FrameLength(d) <= length
    requires buf[ENET_HDR_LEN + IP_HDR_LEN..ENET_HDR_LEN + IP_HDR_LEN + |d.options|] == d.options
    requires buf[ENET_HDR_LEN + IP_HDR_LEN + |d.options|..FrameLength(d)] == d.pktData
    ensures ParseIp(buf, length, stamp) == Some(d.(timeout := stamp, ipGateway := 0))
  {
    var h := ReceivedHdr(buf);
    assert ENET_HDR_LEN + HeaderBytes(h) == ENET_HDR_LEN + IP_HDR_LEN + |d.options|;
    assert ENET_HDR_LEN + h.length as nat == FrameLength(d);
  }

  lemma SplitBlocks(buf: seq<bv8>, lo: nat, o: seq<bv8>, p: seq<bv8>)
    requires lo + |o| + |p| <= |buf| && buf[lo..lo + |o| + |p|] == o + p
    ensures buf[lo..lo + |o|] == o && buf[lo + |o|..lo + |o| + |p|] == p
  {
    assert buf[lo..lo + |o|] == (o + p)[..|o|];
    assert buf[lo + |o|..lo + |o| + |p|] == (o + p)[|o|..];
  }

  /** process_arp's first check: an Ethernet/IPv4 ARP message. */
  predicate ArpHeaderOk(a: ArpMsg) {
    && a.hardwareSpace == ARP_HARD_ETHER && a.hardwareLen == 6
    && a.protocolSpace == ENET_TYPE_IP && a.protocolLen == 4
  }

  /** process_arp's second check: a request or an answer (not RARP or anything else). */
  predicate ArpOpOk(a: ArpMsg) {
    a.opCode == ARP_OP_REQ || a.opCode == ARP_OP_ANS
  }

  datatype ArpVerdict = ArpInputError | ArpOpcodeError | ArpAccepted

  /** The outcome of process_arp's checks, taken in this order. */
  function ClassifyArp(a: ArpMsg): (v: ArpVerdict)
    ensures v == ArpInputError <==> !ArpHeaderOk(a)
    ensures v == ArpOpcodeError <==> ArpHeaderOk(a) && !ArpOpOk(a)
    ensures v == ArpAccepted <==> ArpHeaderOk(a) && ArpOpOk(a)
  {
    if !ArpHeaderOk(a) then ArpInputError
    else if !ArpOpOk(a) then ArpOpcodeError
    else ArpAccepted
  }

  /** Every ARP packet the driver sends passes the driver's own ARP checks. */
  lemma SentArpAccepted(t: ArpPacket, hop: bv32, req: ArpMsg, mac: Mac, ipAddr: bv32)
    requires TemplateOk(t)
    ensures var w := EncodeArpPacket(WithSender(AsRequest(t, hop), mac, ipAddr));
      ClassifyArp(DecodeArp(w[ENET_HDR_LEN..])) == ArpAccepted
    ensures var w := EncodeArpPacket(WithSender(AsReply(t, req), mac, ipAddr));
      ClassifyArp(DecodeArp(w[ENET_HDR_LEN..])) == ArpAccepted
  {
    EncodeDecodeArpPacket(WithSender(AsRequest(t, hop), mac, ipAddr));
    EncodeDecodeArpPacket(WithSender(AsReply(t, req), mac, ipAddr));
  }
}
