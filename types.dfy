/**
 * Types and constants shared by the driver model and the reporting tool:
 * the STinG IP header and datagram records, hardware addresses, and the
 * Ethernet/ARP constants of the port driver.
 */
module StingTypes {

  datatype Option<+T> = None | Some(value: T)

  /** An unsigned 32-bit count or time, where only its value (no bit pattern) matters. */
  type uint32 = x: int | 0 <= x < 0x1_0000_0000

  /** A 6-byte Ethernet hardware address. */
  type Mac = s: seq<bv8> | |s| == 6 witness [0, 0, 0, 0, 0, 0]

  const ETH_ALEN: nat := 6
  /** Shortest Ethernet frame (without FCS); shorter frames are zero-padded. */
  const ETH_MIN_LEN: nat := 60
  /** Longest Ethernet frame (without FCS), Ethernet header included. */
  const ETH_MAX_LEN: nat := 1514
  /** sizeof(ENET_HDR): destination, source, type. */
  const ENET_HDR_LEN: nat := 14
  /** sizeof(IP_HDR): the fixed part of an IPv4 header. */
  const IP_HDR_LEN: nat := 20
  /** sizeof(ARP): an Ethernet/IPv4 ARP message (RFC 826 layout). */
  const ARP_LEN: nat := 28
  /** sizeof(ARP_PACKET): Ethernet header followed by the ARP message. */
  const ARP_PACKET_LEN: nat := 42

  const ENET_TYPE_IP: bv16 := 0x0800
  const ENET_TYPE_ARP: bv16 := 0x0806
  const ARP_HARD_ETHER: bv16 := 1
  const ARP_OP_REQ: bv16 := 1
  const ARP_OP_ANS: bv16 := 2

  const BROADCAST_ADDR: Mac := [0xff, 0xff, 0xff, 0xff, 0xff, 0xff]

  /** Largest value of a C int16 (the type of opt_length and pkt_length). */
  const INT16_MAX: nat := 0x7fff

  /** IP_HDR: the fixed 20-byte IPv4 header, field by field. */
  datatype IpHdr = IpHdr(
    version: bv4,
    hdLen: bv4,        // Internet Header Length, in 32-bit words
    tos: bv8,
    length: bv16,      // total of header, options and data
    ident: bv16,
    reserved: bv1,
    dontFrg: bv1,
    moreFrg: bv1,
    fragOfst: bv13,
    ttl: bv8,
    protocol: bv8,
    hdrChksum: bv16,
    ipSrc: bv32,
    ipDest: bv32)

  /**
   * IP_DGRAM: STinG's internal datagram. opt_length and pkt_length are the
   * lengths of `options` and `pktData`; the queue link is the position of
   * the datagram in the sequence that holds it.
   */
  datatype Dgram = Dgram(
    hdr: IpHdr,
    options: seq<bv8>,
    pktData: seq<bv8>,
    timeout: uint32,
    ipGateway: bv32)
  {
    /** opt_length and pkt_length are int16 fields, so neither exceeds 0x7fff. */
    predicate WellFormed() {
      |options| <= INT16_MAX && |pktData| <= INT16_MAX
    }
  }

  /**
   * The services of the STinG kernel that the driver calls but whose code is
   * not part of this model: check_dgram_ttl (expired), KRmalloc of the
   * IP_DGRAM record for a received datagram (allocates) and of its options
   * and data blocks (allocatesBlocks), the timeout set_dgram_ttl stamps on
   * a received datagram (ttlStamp) and the 200 Hz system timer (hz200).
   */
  datatype Kernel = Kernel(
    expired: iset<Dgram>,
    allocates: iset<Dgram>,
    allocatesBlocks: iset<Dgram>,
    ttlStamp: uint32,
    hz200: uint32)

  function Min(a: int, b: int): int { if a < b then a else b }
}
