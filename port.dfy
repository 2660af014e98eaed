/**
 * The port driver proper: one extended_port with its STinG PORT fields,
 * the datagram queues, the statistics, the shared frame buffers `op`
 * (outgoing IP frames) and `ip` (the receive buffer, `ipBuf` here), the
 * ARP template arp_enet_pkt, and its collaborators: the ARP cache, the
 * USB transport and the trace table.
 */
module Driver {
  import opened StingTypes
  import opened Codec
  import opened Stats
  import opened DgramQueue
  import opened Output
  import opened Input
  import opened ArpCacheModel
  import opened UsbLink
  import opened Trace
  import opened Outcome

  /** memcpy of `data` to the start of a frame buffer. */
  method Fill(buf: array<bv8>, data: seq<bv8>)
    requires |data| <= buf.Length
    modifies buf
    ensures buf[..] == data + old(buf[..])[|data|..]
  {
    forall i | 0 <= i < |data| {
      buf[i] := data[i];
    }
  }

  /**
   * The counters after process_output rejects a datagram: exactly one of
   * send.bad_length, send.bad_host and send.bad_network goes up, the one
   * of the check that failed first.
   */
  function Rejected(c: OutputCounts, v: Verdict): (r: OutputCounts)
    requires !v.Deliver?
    ensures r.(badLength := c.badLength, badHost := c.badHost, badNetwork := c.badNetwork) == c
    ensures r.badLength + r.badHost + r.badNetwork == c.badLength + c.badHost + c.badNetwork + 1
    ensures r.badLength > c.badLength <==> v.TooLong?
    ensures r.badHost > c.badHost <==> v.HostRejected?
    ensures r.badNetwork > c.badNetwork <==> v.Unreachable?
  {
    match v
    case TooLong => c.(badLength := c.badLength + 1)
    case HostRejected => c.(badHost := c.badHost + 1)
    case Unreachable => c.(badNetwork := c.badNetwork + 1)
  }

  /**
   * The fate process_output gives `d` when the port has address `ipAddr`
   * and mask `subMask`, the ARP cache holds `table` and the transport
   * answers the write with success exactly when `ok`: dropped when a check
   * rejects it, deferred when its next hop is not cached (the ARP request
   * written when `ok`), otherwise sent with its IP length, or dropped when
   * the write fails.
   */
  function FateOf(d: Dgram, ipAddr: bv32, subMask: bv32, table: map<IpKey, Mac>, ok: bool): Fate
  {
    var v := Classify(d, ipAddr, subMask);
    if !v.Deliver? then Dropped
    else if IpKey(v.hop) !in table then Deferred(ok)
    else if ok then Sent(IP_HDR_LEN + |d.options| + |d.pktData|)
    else Dropped
  }

  /** `f` is the fate process_output gives `d`, whatever the transport answered. */
  predicate Settles(d: Dgram, f: Fate, ipAddr: bv32, subMask: bv32, table: map<IpKey, Mac>)
  {
    f == FateOf(d, ipAddr, subMask, table, true) || f == FateOf(d, ipAddr, subMask, table, false)
  }

  /**
   * Deferred exactly when the next hop is routable and not cached, sent only
   * when it is cached, and never sent for a datagram a check rejects.
   */
  lemma SettlesMeans(d: Dgram, f: Fate, ipAddr: bv32, subMask: bv32, table: map<IpKey, Mac>)
    requires Settles(d, f, ipAddr, subMask, table)
    ensures var v := Classify(d, ipAddr, subMask);
      && (f.Deferred? <==> v.Deliver? && IpKey(v.hop) !in table)
      && (f.Sent? ==> v.Deliver? && IpKey(v.hop) in table && f.length == IP_HDR_LEN + |d.options| + |d.pktData|)
      && (!v.Deliver? ==> f.Dropped?)
  {
  }

  /** Each datagram of `s` met the fate at its index in `fates`. */
  predicate AllSettle(s: seq<Dgram>, fates: seq<Fate>, ipAddr: bv32, subMask: bv32, table: map<IpKey, Mac>)
    requires |s| == |fates|
    decreases |s|
  {
    s == [] ||
    (AllSettle(s[..|s| - 1], fates[..|s| - 1], ipAddr, subMask, table) && Settles(s[|s| - 1], fates[|s| - 1], ipAddr, subMask, table))
  }

  /** One more datagram settled. */
  lemma AllSettleStep(s: seq<Dgram>, fates: seq<Fate>, i: nat, f: Fate, ipAddr: bv32, subMask: bv32, table: map<IpKey, Mac>)
    requires i < |s| && |fates| == i
    requires AllSettle(s[..i], fates, ipAddr, subMask, table) && Settles(s[i], f, ipAddr, subMask, table)
    ensures AllSettle(s[..i + 1], fates + [f], ipAddr, subMask, table)
  {
    assert s[..i + 1][..i] == s[..i];
    assert (fates + [f])[..i] == fates;
  }

  /** AllSettle, index by index. */
  lemma {:induction false} AllSettleAt(s: seq<Dgram>, fates: seq<Fate>, ipAddr: bv32, subMask: bv32, table: map<IpKey, Mac>)
    requires |s| == |fates| && AllSettle(s, fates, ipAddr, subMask, table)
    ensures forall j :: 0 <= j < |s| ==> Settles(s[j], fates[j], ipAddr, subMask, table)
    decreases |s|
  {
    if s != [] {
      var n := |s| - 1;
      AllSettleAt(s[..n], fates[..n], ipAddr, subMask, table);
      assert forall j :: 0 <= j < n ==> s[..n][j] == s[j] && fates[..n][j] == fates[j];
    }
  }

  /**
   * What a loop puts (back) on arpwait is exactly waiting for address
   * resolution: each datagram is routable and its next hop is not cached.
   */
  lemma {:induction false} KeptAwaitResolution(s: seq<Dgram>, fates: seq<Fate>, ipAddr: bv32, subMask: bv32, table: map<IpKey, Mac>)
    requires |s| == |fates| && forall j :: 0 <= j < |s| ==> Settles(s[j], fates[j], ipAddr, subMask, table)
    ensures forall d :: d in Kept(s, fates) ==> Classify(d, ipAddr, subMask).Deliver? && IpKey(Classify(d, ipAddr, subMask).hop) !in table
    decreases |s|
  {
    if s != [] {
      var n := |s| - 1;
      assert forall j :: 0 <= j < n ==> s[..n][j] == s[j] && fates[..n][j] == fates[j];
      KeptAwaitResolution(s[..n], fates[..n], ipAddr, subMask, table);
      SettlesMeans(s[n], fates[n], ipAddr, subMask, table);
    }
  }

  /**
   * The bookkeeping of a port loop once it has handled the first |fates|
   * live datagrams of `live`: each met its fate, the deferred ones were
   * appended to `q0` giving `queue`, the others were appended to `d0`
   * giving `disc` (IP_discard) and counted in stat_dropped or stat_sd_data
   * (`dr` and `sd`, from `dr0` and `sd0`), and the loop's counters went
   * from `w0` to `w`, up by the datagrams dequeued and requeued.
   */
  ghost predicate Tallied(live: seq<Dgram>, fates: seq<Fate>, queue: seq<Dgram>, q0: seq<Dgram>,
                          disc: seq<Dgram>, d0: seq<Dgram>, dr: int, dr0: int, sd: int, sd0: int,
                          w: WaitCounts, w0: WaitCounts, loop: Loop, ipAddr: bv32, subMask: bv32, table: map<IpKey, Mac>)
  {
    && |fates| <= |live|
    && var done := live[..|fates|];
    && AllSettle(done, fates, ipAddr, subMask, table)
    && queue == q0 + Kept(done, fates)
    && disc == d0 + Gone(done, fates)
    && dr == dr0 + Drops(fates)
    && sd == sd0 + Bytes(fates)
    && w == Tick(w0, loop, |fates|, |Kept(done, fates)|)
  }

  /** One more live datagram handled, with fate `f`. */
  lemma TallyStep(live: seq<Dgram>, fates: seq<Fate>, queue: seq<Dgram>, q0: seq<Dgram>,
                  disc: seq<Dgram>, d0: seq<Dgram>, dr: int, dr0: int, sd: int, sd0: int,
                  w: WaitCounts, w0: WaitCounts, loop: Loop, ipAddr: bv32, subMask: bv32, table: map<IpKey, Mac>, f: Fate)
    requires Tallied(live, fates, queue, q0, disc, d0, dr, dr0, sd, sd0, w, w0, loop, ipAddr, subMask, table)
    requires |fates| < |live| && Settles(live[|fates|], f, ipAddr, subMask, table)
    ensures var x := live[|fates|];
      Tallied(live, fates + [f],
              queue + (if f.Deferred? then [x] else []), q0,
              disc + (if f.Deferred? then [] else [x]), d0,
              dr + (if f.Dropped? then 1 else 0), dr0, sd + FateBytes(f), sd0,
              Tick(w, loop, 1, if f.Deferred? then 1 else 0), w0, loop, ipAddr, subMask, table)
  {
    var i := |fates|;
    StepOnto(live, fates, i, f, q0, d0);
    AllSettleStep(live, fates, i, f, ipAddr, subMask, table);
    assert |fates + [f]| == i + 1;
  }

  /** How many frames the transport delivers before the first fault or the end of the inbox. */
  function LeadingFrames(inbox: seq<GoodArrival>): (n: nat)
    ensures n <= |inbox|
    ensures forall i :: 0 <= i < n ==> inbox[i].Frame?
    ensures n < |inbox| ==> inbox[n].Fault?
  {
    if inbox == [] || inbox[0].Fault? then 0 else 1 + LeadingFrames(inbox[1..])
  }

  /** The branch receive_dgrams takes on a frame's Ethernet header. */
  /**
   * The cache `after` has learned `a`'s sender from `before`: the sender's
   * address is mapped to its hardware address, a cached sender is updated
   * in place, and no other entry is invented or altered.
   */
  predicate Learned(before: map<IpKey, Mac>, after: map<IpKey, Mac>, a: ArpMsg)
  {
    && IpKey(a.srcIp) in after && after[IpKey(a.srcIp)] == a.srcEther
    && (forall key :: key in after && key != IpKey(a.srcIp) ==> key in before && after[key] == before[key])
    && (IpKey(a.srcIp) in before ==> after == before[IpKey(a.srcIp) := a.srcEther])
  }

  datatype FrameKind = BroadcastIp | UnicastIp | ArpFrame | OtherType

  /**
   * An IP frame sent to the broadcast address, any other IP frame, an ARP
   * frame, or a frame of another type.
   */
  function KindOf(eh: EnetHdr): (kind: FrameKind)
    ensures kind.BroadcastIp? || kind.UnicastIp? <==> eh.etherType == ENET_TYPE_IP
    ensures kind.BroadcastIp? ==> eh.destination == BROADCAST_ADDR
    ensures kind.UnicastIp? ==> eh.destination != BROADCAST_ADDR
    ensures kind.ArpFrame? <==> eh.etherType == ENET_TYPE_ARP
  {
    if eh.etherType == ENET_TYPE_IP then
      (if eh.destination == BROADCAST_ADDR then BroadcastIp else UnicastIp)
    else if eh.etherType == ENET_TYPE_ARP then ArpFrame
    else OtherType
  }

  class Port {
    /**
     * The port's address and mask. init_ext_port sets both to
     * 255.255.255.255 and the STinG kernel configures them; no routine of
     * the driver writes them, so here they are fixed when the port is made.
     */
    const ipAddr: bv32
    const subMask: bv32
    /** Set by the STinG kernel when the port is switched on or off. */
    var active: bool
    /** interface_up: set by open_device, cleared by close_device. */
    var interfaceUp: bool
    /**
     * hwaddr and macaddr, both set at install: macaddr is the address the
     * driver sends from (only the CTL_ETHER_GET_MAC request, not part of
     * this model, rewrites it).
     */
    const hwaddr: Mac
    const macaddr: Mac
    /** port.send and port.receive: filled and drained by the STinG kernel and this driver. */
    var send: seq<Dgram>
    var receive: seq<Dgram>
    /** Datagrams waiting for address resolution. */
    var arpwait: seq<Dgram>
    /** Every datagram handed to IP_discard, in order. */
    var discarded: seq<Dgram>
    var statSdData: int
    var statRcvData: int
    var statDropped: int
    const stats: UsbnetStats
    /** arp_enet_pkt: the ARP packet template, partly rewritten before each send. */
    var arpPkt: ArpTemplate
    /** op: the buffer outgoing IP frames are assembled in. */
    const op: array<bv8>
    /** ip: the buffer frames are received into. */
    const ipBuf: array<bv8>
    const cache: ArpCache
    const link: Link
    const trace: TraceTable

    /** Both frame buffers hold ETH_MAX_LEN bytes and are distinct; the trace ring is well formed. */
    ghost predicate Valid()
      reads trace, trace.entry
    {
      && op.Length == ETH_MAX_LEN && ipBuf.Length == ETH_MAX_LEN && op != ipBuf
      && trace.entry as object != ipBuf && trace.entry as object != op
      && trace.Valid()
    }

    /**
     * init_ext_port and install: an inactive port with address and mask
     * 255.255.255.255, empty queues, zero counters, the ARP template with
     * its fixed fields, the hardware address `mac`, an empty ARP cache and
     * a trace table of `traceEntries` unused slots.
     */
    constructor (mac: Mac, ipAddr: bv32, subMask: bv32, status: nat -> int, inbox: seq<GoodArrival>, traceEntries: nat, traceLen: nat)
      ensures Valid()
      ensures this.ipAddr == ipAddr && this.subMask == subMask && !active && !interfaceUp
      ensures hwaddr == mac && macaddr == mac
      ensures send == [] && receive == [] && arpwait == [] && discarded == []
      ensures statSdData == 0 && statRcvData == 0 && statDropped == 0 && stats.Zero()
      ensures arpPkt == InitialTemplate() && cache.table == map[]
      ensures link.written == [] && link.inbox == inbox
      ensures trace.entry.Length == traceEntries && trace.next == 0 && trace.InOrder()
      ensures forall i :: 0 <= i < traceEntries ==> trace.entry[i].time == 0
    {
      this.ipAddr, this.subMask := ipAddr, subMask;
      active, interfaceUp := false, false;
      hwaddr, macaddr := mac, mac;
      send, receive, arpwait, discarded := [], [], [], [];
      statSdData, statRcvData, statDropped := 0, 0, 0;
      stats := new UsbnetStats();
      arpPkt := InitialTemplate();
      op := new bv8[ETH_MAX_LEN];
      ipBuf := new bv8[ETH_MAX_LEN];
      cache := new ArpCache();
      link := new Link(status, inbox);
      trace := new TraceTable(traceEntries, traceLen);
    }

    /**
     * write_device: count the write, hand the frame to the transport,
     * trace it, and count a failure; 0 on success, -1 on failure.
     */
    method WriteDevice(frame: seq<bv8>, now: uint32) returns (rc: int)
      requires Valid()
      modifies stats`writeTotal, stats`writeFailed, link`written, trace, trace.entry
      ensures Valid()
      ensures rc == (if old(link.NextStatus()) < 0 then -1 else 0)
      ensures link.written == old(link.written) + [frame]
      ensures stats.Output() == Written(old(stats.Output()), rc == 0)
      ensures trace.entry.Length > 0 ==>
        && trace.next == Advance(old(trace.next), trace.entry.Length)
        && trace.entry[..] == old(trace.entry[..])[old(trace.next) :=
             Recorded(old(trace.entry[trace.next]), now, old(link.NextStatus()), TraceWrite, |frame|, frame)]
      ensures trace.entry.Length == 0 ==> trace.entry[..] == old(trace.entry[..])
    {
      stats.writeTotal := stats.writeTotal + 1;
      var status := link.Send(frame);
      trace.Trace(TraceWrite, status, |frame|, frame, now);
      if status < 0 {
        stats.writeFailed := stats.writeFailed + 1;
        rc := -1;
      } else {
        rc := 0;
      }
    }

    /**
     * read_device: count the read, take the next frame from the transport
     * into the receive buffer, trace any result but "nothing pending", and
     * count a failure. The result is the frame length, 0 when nothing is
     * pending, or -1.
     */
    method ReadDevice(now: uint32) returns (rc: int)
      requires Valid()
      modifies stats`readTotal, stats`readFailed, link`inbox, trace, trace.entry, ipBuf
      ensures Valid()
      ensures stats.readTotal == old(stats.readTotal) + 1
      ensures stats.readFailed == old(stats.readFailed) + (if rc < 0 then 1 else 0)
      ensures old(link.inbox) == [] ==>
        && rc == 0 && link.inbox == [] && ipBuf[..] == old(ipBuf[..])
        && trace.next == old(trace.next) && trace.entry[..] == old(trace.entry[..])
      ensures old(link.inbox) != [] ==> link.inbox == old(link.inbox)[1..]
      ensures old(link.inbox) != [] && old(link.inbox)[0].Frame? ==>
        var f := old(link.inbox)[0].data;
        rc == |f| > 0 && ipBuf[..] == f + old(ipBuf[..])[|f|..]
      ensures old(link.inbox) != [] && old(link.inbox)[0].Fault? ==> rc == -1 && ipBuf[..] == old(ipBuf[..])
      ensures rc <= ETH_MAX_LEN
      ensures old(link.inbox) != [] && trace.entry.Length > 0 ==>
        var a := old(link.inbox)[0];
        var r := if a.Frame? then |a.data| else a.code;
        && trace.next == Advance(old(trace.next), trace.entry.Length)
        && trace.entry[..] == old(trace.entry[..])[old(trace.next) :=
             Recorded(old(trace.entry[trace.next]), now, r, TraceRead, r, ipBuf[..])]
      ensures trace.entry.Length == 0 ==> trace.entry[..] == old(trace.entry[..])
    {
      stats.readTotal := stats.readTotal + 1;
      var r, data := link.Receive();
      Fill(ipBuf, data);
      if r != 0 {
        trace.Trace(TraceRead, r, r, ipBuf[..], now);
      }
      if r < 0 {
        stats.readFailed := stats.readFailed + 1;
        rc := -1;
      } else {
        rc := r;
      }
    }

    /**
     * send_arp: put our addresses into the template, write it, and count
     * the ARP packet (and a failure); a successful send adds the packet to
     * stat_sd_data.
     */
    method SendArp(now: uint32) returns (rc: int)
      requires Valid()
      modifies stats`writeTotal, stats`writeFailed, stats`sendArpPackets, stats`sendArpErr
      modifies this`arpPkt, this`statSdData, link`written, trace, trace.entry
      ensures Valid()
      ensures arpPkt == WithSender(old(arpPkt), macaddr, ipAddr)
      ensures link.written == old(link.written) + [EncodeArpPacket(arpPkt)]
      ensures rc == (if old(link.NextStatus()) < 0 then -1 else 0)
      ensures stats.Output() == ArpSent(old(stats.Output()), rc == 0)
      ensures statSdData == old(statSdData) + (if rc == 0 then ARP_PACKET_LEN else 0)
    {
      arpPkt := WithSender(arpPkt, macaddr, ipAddr);
      rc := WriteDevice(EncodeArpPacket(arpPkt), now);
      stats.sendArpPackets := stats.sendArpPackets + 1;
      if rc == 0 {
        statSdData := statSdData + ARP_PACKET_LEN;
      } else {
        stats.sendArpErr := stats.sendArpErr + 1;
      }
    }

    /**
     * The cache-miss half of process_output: the template becomes a
     * broadcast request for `hop`, and send_arp writes it.
     */
    twostate predicate ArpRequested(hop: bv32)
      reads this, link, stats
    {
      && arpPkt == WithSender(AsRequest(old(arpPkt), hop), macaddr, ipAddr)
      && link.written == old(link.written) + [EncodeArpPacket(arpPkt)]
      && stats.Output() == ArpSent(old(stats.Output()), old(link.NextStatus()) >= 0)
      && statSdData == old(statSdData) + (if old(link.NextStatus()) >= 0 then ARP_PACKET_LEN else 0)
    }

    method RequestHop(hop: bv32, now: uint32)
      requires Valid()
      modifies stats`writeTotal, stats`writeFailed, stats`sendArpPackets, stats`sendArpErr
      modifies this`arpPkt, this`statSdData, link`written, trace, trace.entry
      ensures Valid() && ArpRequested(hop)
    {
      arpPkt := AsRequest(arpPkt, hop);
      var _ := SendArp(now);
    }

    /**
     * The cache-hit half of process_output: the frame for `d`, addressed to
     * `mac`, is written; the result is the datagram's IP length, or -1 when
     * the write fails.
     */
    twostate predicate IpSent(d: Dgram, mac: Mac, rc: int)
      requires LengthOk(d)
      reads this, link, stats
    {
      && link.written == old(link.written) + [IpFrame(mac, macaddr, d)]
      && rc == (if old(link.NextStatus()) >= 0 then IP_HDR_LEN + |d.options| + |d.pktData| else -1)
      && stats.Output() == IpWritten(old(stats.Output()), old(link.NextStatus()) >= 0)
    }

    /** Assemble the frame in `op`, write it, and count it. */
    method TransmitIp(d: Dgram, mac: Mac, now: uint32) returns (rc: int)
      requires Valid() && LengthOk(d)
      modifies stats`writeTotal, stats`writeFailed, stats`sendIpPackets, link`written, trace, trace.entry, op
      ensures Valid() && IpSent(d, mac, rc)
      ensures op[..PaddedLength(d)] == IpFrame(mac, macaddr, d)
    {
      var frame := IpFrame(mac, macaddr, d);
      Fill(op, frame);
      assert op[..|frame|] == frame;
      rc := WriteDevice(op[..|frame|], now);
      if rc != 0 {
        rc := -1;
        return;
      }
      stats.sendIpPackets := stats.sendIpPackets + 1;
      rc := IP_HDR_LEN + |d.options| + |d.pktData|;
    }

    /**
     * process_output: reject the datagram (length, host part, no route),
     * or ask for the next hop's hardware address and defer it (0), or send
     * it (its IP length, or -1 when the write fails).
     */
    method ProcessOutput(d: Dgram, now: uint32) returns (rc: int)
      requires Valid()
      modifies stats`writeTotal, stats`writeFailed, stats`sendBadLength, stats`sendBadHost, stats`sendBadNetwork
      modifies stats`sendIpPackets, stats`sendArpPackets, stats`sendArpErr
      modifies this`arpPkt, this`statSdData, link`written, trace, trace.entry, op
      ensures Valid()
      ensures old(link.written) <= link.written
      ensures var v := Classify(d, ipAddr, subMask);
        && (!v.Deliver? ==>
              && rc == -1 && stats.Output() == Rejected(old(stats.Output()), v)
              && link.written == old(link.written) && arpPkt == old(arpPkt) && statSdData == old(statSdData)
              && unchanged(trace, trace.entry, op))
        && (v.Deliver? && IpKey(v.hop) !in cache.table ==> rc == 0 && ArpRequested(v.hop))
        && (v.Deliver? && IpKey(v.hop) in cache.table ==> IpSent(d, cache.table[IpKey(v.hop)], rc))
      ensures var v := Classify(d, ipAddr, subMask);
        v.Deliver? && IpKey(v.hop) in cache.table ==> statSdData == old(statSdData)
    {
      var v := Classify(d, ipAddr, subMask);
      if !v.Deliver? {
        CountRejected(v);
        rc := -1;
        return;
      }
      rc := Forward(d, v.hop, now);
    }

    /** The counter of the first check process_output's datagram failed. */
    method CountRejected(v: Verdict)
      requires !v.Deliver?
      modifies stats`sendBadLength, stats`sendBadHost, stats`sendBadNetwork
      ensures stats.Output() == Rejected(old(stats.Output()), v)
    {
      match v {
        case TooLong => stats.sendBadLength := stats.sendBadLength + 1;
        case HostRejected => stats.sendBadHost := stats.sendBadHost + 1;
        case Unreachable => stats.sendBadNetwork := stats.sendBadNetwork + 1;
      }
    }

    /**
     * The second half of process_output, for a datagram that passed the
     * checks: look `hop` up in the ARP cache; on a miss request it and
     * defer (0), on a hit send the frame.
     */
    method Forward(d: Dgram, hop: bv32, now: uint32) returns (rc: int)
      requires Valid() && LengthOk(d)
      modifies stats`writeTotal, stats`writeFailed, stats`sendIpPackets, stats`sendArpPackets, stats`sendArpErr
      modifies this`arpPkt, this`statSdData, link`written, trace, trace.entry, op
      ensures Valid()
      ensures IpKey(hop) !in cache.table ==> rc == 0 && ArpRequested(hop)
      ensures IpKey(hop) in cache.table ==> IpSent(d, cache.table[IpKey(hop)], rc) && statSdData == old(statSdData)
    {
      var cached := cache.Lookup(hop);
      if cached.None? {
        RequestHop(hop, now);
        rc := 0;
      } else {
        rc := TransmitIp(d, cached.value, now);
      }
    }

    /** process_output's result for `d`, read as the datagram's fate. */
    method Attempt(d: Dgram, now: uint32) returns (rc: int, ghost fate: Fate)
      requires Valid()
      modifies stats`writeTotal, stats`writeFailed, stats`sendBadLength, stats`sendBadHost, stats`sendBadNetwork
      modifies stats`sendIpPackets, stats`sendArpPackets, stats`sendArpErr
      modifies this`arpPkt, this`statSdData, link`written, trace, trace.entry, op
      ensures Valid() && old(link.written) <= link.written
      ensures fate == FateOf(d, ipAddr, subMask, cache.table, old(link.NextStatus()) >= 0) && rc == ResultOf(fate)
      ensures statSdData == old(statSdData) + (if fate.Deferred? then FateBytes(fate) else 0)
    {
      ghost var ok := link.NextStatus() >= 0;
      rc := ProcessOutput(d, now);
      fate := if rc == 0 then Deferred(ok) else if rc == -1 then Dropped else Sent(rc);
    }

    /**
     * One pass of either port loop over a dequeued datagram: count it as
     * dequeued, put it through process_output, and switch on the result
     * (the caller requeues a deferred datagram).
     */
    method Settle(d: Dgram, now: uint32, loop: Loop) returns (deferred: bool, ghost fate: Fate)
      requires Valid()
      modifies stats`writeTotal, stats`writeFailed, stats`sendBadLength, stats`sendBadHost, stats`sendBadNetwork
      modifies stats`sendIpPackets, stats`sendArpPackets, stats`sendArpErr
      modifies stats`sendDequeued, stats`arpWaitQueued, stats`arpWaitDequeued, stats`arpWaitRequeued
      modifies this`arpPkt, this`statSdData, this`statDropped, this`discarded, link`written, trace, trace.entry, op
      ensures Valid() && old(link.written) <= link.written
      ensures fate == FateOf(d, ipAddr, subMask, cache.table, old(link.NextStatus()) >= 0) && deferred == fate.Deferred?
      ensures discarded == if deferred then old(discarded) else old(discarded) + [d]
      ensures statDropped == old(statDropped) + (if fate.Dropped? then 1 else 0)
      ensures statSdData == old(statSdData) + FateBytes(fate)
      ensures stats.Waits() == Tick(old(stats.Waits()), loop, 1, if deferred then 1 else 0)
    {
      stats.CountDequeued(loop);
      var rc;
      rc, fate := Attempt(d, now);
      deferred := Dispose(d, rc, loop);
    }

    /**
     * The switch on process_output's result: 0 counts the datagram as
     * requeued (the caller queues it); -1 discards it and counts it in
     * stat_dropped; a length discards it and adds the length to
     * stat_sd_data.
     */
    method Dispose(d: Dgram, rc: int, loop: Loop) returns (deferred: bool)
      modifies stats`arpWaitQueued, stats`arpWaitRequeued, this`discarded, this`statDropped, this`statSdData
      ensures deferred == (rc == 0)
      ensures stats.Waits() == Tick(old(stats.Waits()), loop, 0, if rc == 0 then 1 else 0)
      ensures discarded == if rc == 0 then old(discarded) else old(discarded) + [d]
      ensures statDropped == old(statDropped) + (if rc == -1 then 1 else 0)
      ensures statSdData == old(statSdData) + (if rc != 0 && rc != -1 then rc else 0)
    {
      deferred := rc == 0;
      if rc == 0 {
        stats.CountRequeued(loop);
      } else if rc == -1 {
        discarded := discarded + [d];
        statDropped := statDropped + 1;
      } else {
        discarded := discarded + [d];
        statSdData := statSdData + rc;
      }
    }

    /**
     * One turn of either port loop: dequeue_dgram on `pending`, and settle
     * the datagram it returns, if any. The datagram is the first live one
     * of `pending`, and the live datagrams of `rest` are the others.
     */
    method Turn(pending: seq<Dgram>, now: uint32, k: Kernel, loop: Loop)
      returns (next: Option<Dgram>, rest: seq<Dgram>, deferred: bool, ghost fate: Fate)
      requires Valid()
      modifies stats`writeTotal, stats`writeFailed, stats`sendBadLength, stats`sendBadHost, stats`sendBadNetwork
      modifies stats`sendIpPackets, stats`sendArpPackets, stats`sendArpErr
      modifies stats`sendDequeued, stats`arpWaitQueued, stats`arpWaitDequeued, stats`arpWaitRequeued
      modifies this`arpPkt, this`statSdData, this`statDropped, this`discarded, link`written, trace, trace.entry, op
      ensures Valid() && old(link.written) <= link.written
      ensures next.None? ==>
        && Live(pending, k.expired) == [] && rest == []
        && stats.Waits() == old(stats.Waits()) && discarded == old(discarded)
        && statDropped == old(statDropped) && statSdData == old(statSdData)
      ensures next.Some? ==>
        && |rest| < |pending| && Live(pending, k.expired) != []
        && Live(pending, k.expired)[0] == next.value && Live(pending, k.expired)[1..] == Live(rest, k.expired)
        && deferred == fate.Deferred? && Settles(next.value, fate, ipAddr, subMask, cache.table)
        && discarded == (if deferred then old(discarded) else old(discarded) + [next.value])
        && statDropped == old(statDropped) + (if fate.Dropped? then 1 else 0)
        && statSdData == old(statSdData) + FateBytes(fate)
        && stats.Waits() == Tick(old(stats.Waits()), loop, 1, if deferred then 1 else 0)
    {
      var dropped;
      next, rest, dropped := Dequeue(pending, k.expired);
      DequeuedIsFirstLive(pending, k.expired);
      deferred, fate := false, Dropped;
      if next.Some? {
        assert Live(pending, k.expired)[1..] == Live(rest, k.expired);
        deferred, fate := Settle(next.value, now, loop);
      }
    }

    /** Tallied, over the port's own state. */
    ghost predicate Tally(live: seq<Dgram>, fates: seq<Fate>, queue: seq<Dgram>, q0: seq<Dgram>, d0: seq<Dgram>,
                          dr0: int, sd0: int, w0: WaitCounts, loop: Loop)
      reads this`discarded, this`statDropped, this`statSdData, cache`table
      reads stats`sendDequeued, stats`arpWaitQueued, stats`arpWaitDequeued, stats`arpWaitRequeued
    {
      Tallied(live, fates, queue, q0, discarded, d0, statDropped, dr0, statSdData, sd0, stats.Waits(), w0, loop,
              ipAddr, subMask, cache.table)
    }

    /**
     * One turn of a port loop with its bookkeeping: dequeue from
     * `pending`, settle the datagram, and append it to `queue` when it is
     * deferred. `done` when `pending` held no live datagram.
     */
    method Pass(pending: seq<Dgram>, queue: seq<Dgram>, now: uint32, k: Kernel, loop: Loop,
                ghost live: seq<Dgram>, ghost fates: seq<Fate>, ghost q0: seq<Dgram>, ghost d0: seq<Dgram>,
                ghost dr0: int, ghost sd0: int, ghost w0: WaitCounts)
      returns (done: bool, rest: seq<Dgram>, queue': seq<Dgram>, ghost fates': seq<Fate>)
      requires Valid()
      requires |fates| <= |live| && Live(pending, k.expired) == live[|fates|..]
      requires Tally(live, fates, queue, q0, d0, dr0, sd0, w0, loop)
      modifies stats`writeTotal, stats`writeFailed, stats`sendBadLength, stats`sendBadHost, stats`sendBadNetwork
      modifies stats`sendIpPackets, stats`sendArpPackets, stats`sendArpErr
      modifies stats`sendDequeued, stats`arpWaitQueued, stats`arpWaitDequeued, stats`arpWaitRequeued
      modifies this`arpPkt, this`statSdData, this`statDropped, this`discarded, link`written, trace, trace.entry, op
      ensures Valid() && old(link.written) <= link.written
      ensures |fates'| <= |live| && Live(rest, k.expired) == live[|fates'|..]
      ensures Tally(live, fates', queue', q0, d0, dr0, sd0, w0, loop)
      ensures done ==> |fates'| == |live| && rest == []
      ensures !done ==> |rest| < |pending|
    {
      ghost var disc, dr, sd, w := discarded, statDropped, statSdData, stats.Waits();
      var next, deferred;
      ghost var fate;
      next, rest, deferred, fate := Turn(pending, now, k, loop);
      done, queue', fates' := next.None?, queue, fates;
      if next.Some? {
        TallyStep(live, fates, queue, q0, disc, d0, dr, dr0, sd, sd0, w, w0, loop, ipAddr, subMask, cache.table, fate);
        if deferred {
          queue' := Enqueue(queue, next.value);
        }
        fates' := fates + [fate];
      }
    }

    /**
     * The loop send_dgrams and the drain of process_arp share: dequeue
     * every live datagram of `pending` in order and put it through
     * process_output; the deferred ones are appended to `queue` (arpwait,
     * or the drain's temporary queue), the others are discarded and
     * counted as sent or dropped. `fates` are the outcomes, one per live
     * datagram, and the loop ends with `pending` empty.
     */
    method RunLoop(pending: seq<Dgram>, queue: seq<Dgram>, now: uint32, k: Kernel, loop: Loop)
      returns (pending': seq<Dgram>, queue': seq<Dgram>, ghost fates: seq<Fate>)
      requires Valid()
      modifies stats`writeTotal, stats`writeFailed, stats`sendBadLength, stats`sendBadHost, stats`sendBadNetwork
      modifies stats`sendIpPackets, stats`sendArpPackets, stats`sendArpErr
      modifies stats`sendDequeued, stats`arpWaitQueued, stats`arpWaitDequeued, stats`arpWaitRequeued
      modifies this`arpPkt, this`statSdData, this`statDropped, this`discarded, link`written, trace, trace.entry, op
      ensures Valid() && old(link.written) <= link.written
      ensures var live := Live(pending, k.expired);
        && |fates| == |live| && pending' == []
        && (forall j :: 0 <= j < |live| ==> Settles(live[j], fates[j], ipAddr, subMask, cache.table))
        && queue' == queue + Kept(live, fates)
        && discarded == old(discarded) + Gone(live, fates)
        && statDropped == old(statDropped) + Drops(fates)
        && statSdData == old(statSdData) + Bytes(fates)
        && stats.Waits() == Tick(old(stats.Waits()), loop, |live|, |Kept(live, fates)|)
    {
      pending', queue' := pending, queue;
      ghost var live := Live(pending, k.expired);
      ghost var d0, dr0, sd0, w0 := discarded, statDropped, statSdData, stats.Waits();
      fates := [];
      while true
        invariant Valid() && old(link.written) <= link.written
        invariant |fates| <= |live| && Live(pending', k.expired) == live[|fates|..]
        invariant Tally(live, fates, queue', queue, d0, dr0, sd0, w0, loop)
        decreases |pending'|
      {
        var done, rest;
        done, rest, queue', fates := Pass(pending', queue', now, k, loop, live, fates, queue, d0, dr0, sd0, w0);
        pending' := rest;
        if done {
          break;
        }
      }
      assert live[..|fates|] == live;
      AllSettleAt(live, fates, ipAddr, subMask, cache.table);
    }

    /**
     * The drain at the end of process_arp: every live datagram of arpwait
     * goes through process_output again; the deferred ones are collected
     * on a temporary queue that becomes the new arpwait, so none is tried
     * twice.
     */
    method DrainArpWait(now: uint32, k: Kernel) returns (ghost fates: seq<Fate>)
      requires Valid()
      modifies stats`writeTotal, stats`writeFailed, stats`sendBadLength, stats`sendBadHost, stats`sendBadNetwork
      modifies stats`sendIpPackets, stats`sendArpPackets, stats`sendArpErr
      modifies stats`sendDequeued, stats`arpWaitQueued, stats`arpWaitDequeued, stats`arpWaitRequeued
      modifies this`arpPkt, this`statSdData, this`statDropped, this`discarded, this`arpwait
      modifies link`written, trace, trace.entry, op
      ensures Valid() && old(link.written) <= link.written
      ensures var live := Live(old(arpwait), k.expired);
        && |fates| == |live|
        && (forall j :: 0 <= j < |live| ==> Settles(live[j], fates[j], ipAddr, subMask, cache.table))
        && arpwait == Kept(live, fates)
        && discarded == old(discarded) + Gone(live, fates)
        && statDropped == old(statDropped) + Drops(fates)
        && statSdData == old(statSdData) + Bytes(fates)
        && stats.Waits() == Tick(old(stats.Waits()), DrainLoop, |live|, |Kept(live, fates)|)
    {
      var rest, temp;
      rest, temp, fates := RunLoop(arpwait, [], now, k, DrainLoop);
      assert [] + Kept(Live(old(arpwait), k.expired), fates) == Kept(Live(old(arpwait), k.expired), fates);
      arpwait := temp;
    }

    /**
     * send_dgrams: on an active port, every live datagram of port.send goes
     * through process_output; the deferred ones are appended to arpwait,
     * the others are discarded and counted as sent or dropped. An inactive
     * port, or an empty send queue, is left alone.
     */
    method SendDgrams(now: uint32, k: Kernel) returns (ghost fates: seq<Fate>)
      requires Valid()
      modifies stats`writeTotal, stats`writeFailed, stats`sendBadLength, stats`sendBadHost, stats`sendBadNetwork
      modifies stats`sendIpPackets, stats`sendArpPackets, stats`sendArpErr
      modifies stats`sendDequeued, stats`arpWaitQueued, stats`arpWaitDequeued, stats`arpWaitRequeued
      modifies this`arpPkt, this`statSdData, this`statDropped, this`discarded, this`arpwait, this`send
      modifies link`written, trace, trace.entry, op
      ensures Valid() && old(link.written) <= link.written
      ensures !active ==> fates == [] && unchanged(this, stats, link, trace, trace.entry, op)
      ensures active ==> var live := Live(old(send), k.expired);
        && send == [] && |fates| == |live|
        && (forall j :: 0 <= j < |live| ==> Settles(live[j], fates[j], ipAddr, subMask, cache.table))
        && arpwait == old(arpwait) + Kept(live, fates)
        && discarded == old(discarded) + Gone(live, fates)
        && statDropped == old(statDropped) + Drops(fates)
        && statSdData == old(statSdData) + Bytes(fates)
        && stats.Waits() == Tick(old(stats.Waits()), SendLoop, |live|, |Kept(live, fates)|)
    {
      fates := [];
      if !active {
        return;
      }
      if send == [] {
        assert stats.Waits() == Tick(stats.Waits(), SendLoop, 0, 0);
        return;
      }
      send, arpwait, fates := RunLoop(send, arpwait, now, k, SendLoop);
    }

    /**
     * process_ip: check the frame in the receive buffer, build a datagram
     * from it and append it to port.receive; 0 when it was queued, -1 when
     * a check or an allocation failed (a datagram whose option or data
     * block could not be allocated is handed to IP_discard).
     */
    method ProcessIp(length: int, k: Kernel) returns (rc: int)
      requires Valid()
      modifies this`receive, this`discarded
      ensures var p := ParseIp(ipBuf[..], length, k.ttlStamp);
        && (rc == 0 <==> p.Some? && p.value in k.allocates && p.value in k.allocatesBlocks)
        && (rc != 0 ==> rc == -1 && receive == old(receive))
        && (rc == 0 ==> receive == Enqueue(old(receive), p.value))
        && discarded == if p.Some? && p.value in k.allocates && p.value !in k.allocatesBlocks
                        then old(discarded) + [p.value] else old(discarded)
    {
      var p := ParseIp(ipBuf[..], length, k.ttlStamp);
      if p.None? || p.value !in k.allocates {
        return -1;
      }
      if p.value !in k.allocatesBlocks {
        discarded := discarded + [p.value];
        return -1;
      }
      receive := Enqueue(receive, p.value);
      rc := 0;
    }

    /**
     * The cache update of process_arp: the sender's hardware address is
     * entered, or overwrites the cached one; no other entry is invented
     * or altered.
     */
    method Learn(a: ArpMsg)
      modifies cache`table
      ensures IpKey(a.srcIp) in cache.table && cache.table[IpKey(a.srcIp)] == a.srcEther
      ensures forall key :: key in cache.table && key != IpKey(a.srcIp) ==>
        key in old(cache.table) && cache.table[key] == old(cache.table)[key]
      ensures IpKey(a.srcIp) in old(cache.table) ==> cache.table == old(cache.table)[IpKey(a.srcIp) := a.srcEther]
    {
      var cached := cache.Lookup(a.srcIp);
      if cached.None? {
        cache.Enter(a.srcIp, a.srcEther);
      } else {
        cache.Update(a.srcIp, a.srcEther);
      }
    }

    /**
     * The answer of process_arp: a request for our address is counted and
     * answered with a reply from us to the requester; an answer for our
     * address is counted; a message for another address changes nothing.
     * `reply` is the frame written, if any.
     */
    method Answer(a: ArpMsg, now: uint32) returns (ghost reply: seq<seq<bv8>>)
      requires Valid()
      modifies stats`arpRequestsReceived, stats`arpAnswersReceived
      modifies stats`writeTotal, stats`writeFailed, stats`sendArpPackets, stats`sendArpErr
      modifies this`arpPkt, this`statSdData, link`written, trace, trace.entry
      ensures Valid()
      ensures link.written == old(link.written) + reply
      ensures a.destIp == ipAddr && a.opCode == ARP_OP_REQ ==>
        && arpPkt == WithSender(AsReply(old(arpPkt), a), macaddr, ipAddr)
        && reply == [EncodeArpPacket(arpPkt)]
        && stats.arpRequestsReceived == old(stats.arpRequestsReceived) + 1
        && stats.arpAnswersReceived == old(stats.arpAnswersReceived)
        && stats.Output() == ArpSent(old(stats.Output()), old(link.NextStatus()) >= 0)
        && statSdData == old(statSdData) + (if old(link.NextStatus()) >= 0 then ARP_PACKET_LEN else 0)
      ensures !(a.destIp == ipAddr && a.opCode == ARP_OP_REQ) ==>
        && reply == [] && arpPkt == old(arpPkt) && statSdData == old(statSdData)
        && stats.Output() == old(stats.Output())
        && stats.arpRequestsReceived == old(stats.arpRequestsReceived)
        && stats.arpAnswersReceived == old(stats.arpAnswersReceived) + (if a.destIp == ipAddr then 1 else 0)
    {
      reply := [];
      if a.destIp == ipAddr {
        if a.opCode == ARP_OP_REQ {
          stats.arpRequestsReceived := stats.arpRequestsReceived + 1;
          arpPkt := AsReply(arpPkt, a);
          var _ := SendArp(now);
          reply := [EncodeArpPacket(arpPkt)];
        } else {
          stats.arpAnswersReceived := stats.arpAnswersReceived + 1;
        }
      }
    }

    /**
     * process_arp for a message that passed its checks: learn the sender's
     * address, answer it, and drain arpwait.
     */
    method Accept(a: ArpMsg, now: uint32, k: Kernel) returns (ghost reply: seq<seq<bv8>>, ghost fates: seq<Fate>)
      requires Valid()
      modifies stats`arpRequestsReceived, stats`arpAnswersReceived
      modifies stats`writeTotal, stats`writeFailed, stats`sendBadLength, stats`sendBadHost, stats`sendBadNetwork
      modifies stats`sendIpPackets, stats`sendArpPackets, stats`sendArpErr
      modifies stats`sendDequeued, stats`arpWaitQueued, stats`arpWaitDequeued, stats`arpWaitRequeued
      modifies this`arpPkt, this`statSdData, this`statDropped, this`discarded, this`arpwait, cache`table
      modifies link`written, trace, trace.entry, op
      ensures Valid() && old(link.written) + reply <= link.written
      ensures Learned(old(cache.table), cache.table, a)
      ensures reply != [] <==> a.destIp == ipAddr && a.opCode == ARP_OP_REQ
      ensures reply != [] ==> reply == [EncodeArpPacket(WithSender(AsReply(old(arpPkt), a), macaddr, ipAddr))]
      ensures stats.arpRequestsReceived == old(stats.arpRequestsReceived) + (if reply != [] then 1 else 0)
      ensures stats.arpAnswersReceived ==
        old(stats.arpAnswersReceived) + (if a.destIp == ipAddr && a.opCode != ARP_OP_REQ then 1 else 0)
      ensures var live := Live(old(arpwait), k.expired);
        && |fates| == |live|
        && stats.Waits() == Tick(old(stats.Waits()), DrainLoop, |live|, |Kept(live, fates)|)
        && (forall j :: 0 <= j < |live| ==> Settles(live[j], fates[j], ipAddr, subMask, cache.table))
        && arpwait == Kept(live, fates)
        && discarded == old(discarded) + Gone(live, fates)
        && statDropped == old(statDropped) + Drops(fates)
        && statSdData == old(statSdData) + (if reply != [] && old(link.NextStatus()) >= 0 then ARP_PACKET_LEN else 0) + Bytes(fates)
    {
      reply := Respond(a, now);
      fates := DrainArpWait(now, k);
    }

    /** The cache update and the answer of process_arp, before the drain. */
    method Respond(a: ArpMsg, now: uint32) returns (ghost reply: seq<seq<bv8>>)
      requires Valid()
      modifies stats`arpRequestsReceived, stats`arpAnswersReceived
      modifies stats`writeTotal, stats`writeFailed, stats`sendArpPackets, stats`sendArpErr
      modifies this`arpPkt, this`statSdData, link`written, trace, trace.entry, cache`table
      ensures Valid() && link.written == old(link.written) + reply
      ensures Learned(old(cache.table), cache.table, a)
      ensures reply != [] <==> a.destIp == ipAddr && a.opCode == ARP_OP_REQ
      ensures stats.arpRequestsReceived == old(stats.arpRequestsReceived) + (if reply != [] then 1 else 0)
      ensures stats.arpAnswersReceived ==
        old(stats.arpAnswersReceived) + (if a.destIp == ipAddr && a.opCode != ARP_OP_REQ then 1 else 0)
      ensures reply != [] ==> reply == [EncodeArpPacket(WithSender(AsReply(old(arpPkt), a), macaddr, ipAddr))]
      ensures statSdData == old(statSdData) + (if reply != [] && old(link.NextStatus()) >= 0 then ARP_PACKET_LEN else 0)
    {
      Learn(a);
      reply := Answer(a, now);
    }

    /**
     * process_arp: reject a message that is not Ethernet/IPv4 ARP (-1,
     * counted as an input error) or whose opcode is neither request nor
     * answer (-1, counted as an opcode error); otherwise learn the sender's
     * address, answer a request for our address, retry every datagram
     * awaiting resolution, and return 0.
     */
    method ProcessArp(a: ArpMsg, now: uint32, k: Kernel) returns (rc: int, ghost reply: seq<seq<bv8>>, ghost fates: seq<Fate>)
      requires Valid()
      modifies stats`arpInputErrors, stats`arpOpcodeErrors, stats`arpRequestsReceived, stats`arpAnswersReceived
      modifies stats`writeTotal, stats`writeFailed, stats`sendBadLength, stats`sendBadHost, stats`sendBadNetwork
      modifies stats`sendIpPackets, stats`sendArpPackets, stats`sendArpErr
      modifies stats`sendDequeued, stats`arpWaitQueued, stats`arpWaitDequeued, stats`arpWaitRequeued
      modifies this`arpPkt, this`statSdData, this`statDropped, this`discarded, this`arpwait, cache`table
      modifies link`written, trace, trace.entry, op
      ensures Valid() && old(link.written) + reply <= link.written
      ensures rc == (if ClassifyArp(a) == ArpAccepted then 0 else -1)
      ensures stats.arpInputErrors == old(stats.arpInputErrors) + (if ClassifyArp(a) == ArpInputError then 1 else 0)
      ensures stats.arpOpcodeErrors == old(stats.arpOpcodeErrors) + (if ClassifyArp(a) == ArpOpcodeError then 1 else 0)
      ensures rc != 0 ==>
        && reply == [] && fates == [] && cache.table == old(cache.table) && link.written == old(link.written)
        && arpwait == old(arpwait) && discarded == old(discarded)
        && statDropped == old(statDropped) && statSdData == old(statSdData)
        && arpPkt == old(arpPkt) && unchanged(trace, trace.entry, op)
        && stats.Output() == old(stats.Output()) && stats.Waits() == old(stats.Waits())
        && stats.arpRequestsReceived == old(stats.arpRequestsReceived)
        && stats.arpAnswersReceived == old(stats.arpAnswersReceived)
      ensures rc == 0 ==>
        && Learned(old(cache.table), cache.table, a)
        && (reply != [] <==> a.destIp == ipAddr && a.opCode == ARP_OP_REQ)
        && (reply != [] ==> reply == [EncodeArpPacket(WithSender(AsReply(old(arpPkt), a), macaddr, ipAddr))])
        && stats.arpRequestsReceived == old(stats.arpRequestsReceived) + (if reply != [] then 1 else 0)
        && stats.arpAnswersReceived ==
             old(stats.arpAnswersReceived) + (if a.destIp == ipAddr && a.opCode != ARP_OP_REQ then 1 else 0)
        && var live := Live(old(arpwait), k.expired);
        && |fates| == |live|
        && stats.Waits() == Tick(old(stats.Waits()), DrainLoop, |live|, |Kept(live, fates)|)
        && (forall j :: 0 <= j < |live| ==> Settles(live[j], fates[j], ipAddr, subMask, cache.table))
        && arpwait == Kept(live, fates)
        && discarded == old(discarded) + Gone(live, fates)
        && statDropped == old(statDropped) + Drops(fates)
        && statSdData == old(statSdData) + (if reply != [] && old(link.NextStatus()) >= 0 then ARP_PACKET_LEN else 0) + Bytes(fates)
    {
      reply, fates := [], [];
      var v := ClassifyArp(a);
      if v == ArpInputError {
        stats.arpInputErrors := stats.arpInputErrors + 1;
        return -1, reply, fates;
      }
      if v == ArpOpcodeError {
        stats.arpOpcodeErrors := stats.arpOpcodeErrors + 1;
        return -1, reply, fates;
      }
      reply, fates := Accept(a, now, k);
      rc := 0;
    }

    /** The Ethernet header of the frame in the receive buffer. */
    function Header(): EnetHdr
      requires ipBuf.Length == ETH_MAX_LEN
      reads ipBuf
    {
      DecodeEnetHdr(ipBuf[..ENET_HDR_LEN])
    }

    /** The ARP message that follows it. */
    function ArpInBuffer(): ArpMsg
      requires ipBuf.Length == ETH_MAX_LEN
      reads ipBuf
    {
      DecodeArp(ipBuf[ENET_HDR_LEN..ENET_HDR_LEN + ARP_LEN])
    }

    /**
     * The IP branch of receive_dgrams: the frame is counted as good; a
     * broadcast frame is counted and
     * otherwise ignored, leaving the result of the previous frame (`prev`)
     * in place; any other frame goes to process_ip, and a failure is
     * counted as a bad IP packet.
     */
    method ReceiveIp(length: int, prev: int, k: Kernel) returns (rc: int)
      requires Valid() && Header().etherType == ENET_TYPE_IP
      modifies stats`recvGood, stats`procBroadcastIp, stats`procNormalIp, stats`procBadIp, this`receive, this`discarded
      ensures stats.recvGood == old(stats.recvGood) + 1
      ensures Header().destination == BROADCAST_ADDR ==>
        && rc == prev && receive == old(receive) && discarded == old(discarded)
        && stats.procBroadcastIp == old(stats.procBroadcastIp) + 1
        && stats.procNormalIp == old(stats.procNormalIp) && stats.procBadIp == old(stats.procBadIp)
      ensures Header().destination != BROADCAST_ADDR ==>
        && var p := ParseIp(ipBuf[..], length, k.ttlStamp);
        && (rc == 0 <==> p.Some? && p.value in k.allocates && p.value in k.allocatesBlocks)
        && (rc != 0 ==> rc == -1 && receive == old(receive))
        && (rc == 0 ==> receive == Enqueue(old(receive), p.value))
        && discarded == (if p.Some? && p.value in k.allocates && p.value !in k.allocatesBlocks
                         then old(discarded) + [p.value] else old(discarded))
        && stats.procBroadcastIp == old(stats.procBroadcastIp)
        && stats.procNormalIp == old(stats.procNormalIp) + 1
        && stats.procBadIp == old(stats.procBadIp) + (if rc != 0 then 1 else 0)
    {
      stats.recvGood := stats.recvGood + 1;
      if Header().destination == BROADCAST_ADDR {
        stats.procBroadcastIp := stats.procBroadcastIp + 1;
        return prev;
      }
      stats.procNormalIp := stats.procNormalIp + 1;
      rc := ProcessIp(length, k);
      if rc != 0 {
        stats.procBadIp := stats.procBadIp + 1;
      }
    }

    /** The ARP branch of receive_dgrams: count the frame, process_arp, and count a failure as a bad ARP packet. */
    method ReceiveArp(now: uint32, k: Kernel) returns (rc: int, ghost fates: seq<Fate>)
      requires Valid()
      modifies stats`recvGood, stats`procArp, stats`procBadArp
      modifies stats`arpInputErrors, stats`arpOpcodeErrors, stats`arpRequestsReceived, stats`arpAnswersReceived
      modifies stats`writeTotal, stats`writeFailed, stats`sendBadLength, stats`sendBadHost, stats`sendBadNetwork
      modifies stats`sendIpPackets, stats`sendArpPackets, stats`sendArpErr
      modifies stats`sendDequeued, stats`arpWaitQueued, stats`arpWaitDequeued, stats`arpWaitRequeued
      modifies this`arpPkt, this`statSdData, this`statDropped, this`discarded, this`arpwait, cache`table
      modifies link`written, trace, trace.entry, op
      ensures Valid() && old(link.written) <= link.written
      ensures rc == (if ClassifyArp(old(ArpInBuffer())) == ArpAccepted then 0 else -1)
      ensures stats.recvGood == old(stats.recvGood) + 1 && stats.procArp == old(stats.procArp) + 1
      ensures stats.procBadArp == old(stats.procBadArp) + (if rc != 0 then 1 else 0)
      ensures rc != 0 ==>
        && fates == [] && cache.table == old(cache.table) && arpwait == old(arpwait) && discarded == old(discarded)
      ensures rc == 0 ==>
        && Learned(old(cache.table), cache.table, old(ArpInBuffer()))
        && var live := Live(old(arpwait), k.expired);
        && |fates| == |live|
        && (forall j :: 0 <= j < |live| ==> Settles(live[j], fates[j], ipAddr, subMask, cache.table))
        && arpwait == Kept(live, fates)
        && discarded == old(discarded) + Gone(live, fates)
      ensures statDropped == old(statDropped) + Drops(fates)
    {
      var a := ArpInBuffer();
      stats.recvGood := stats.recvGood + 1;
      stats.procArp := stats.procArp + 1;
      ghost var reply;
      rc, reply, fates := ProcessArp(a, now, k);
      if rc != 0 {
        stats.procBadArp := stats.procBadArp + 1;
      }
    }

    /** The switch of receive_dgrams on the frame's type, with the receive.* counters. */
    method Route(length: int, prev: int, now: uint32, k: Kernel) returns (rc: int, ghost fates: seq<Fate>)
      requires Valid()
      modifies stats`recvGood, stats`recvBad
      modifies stats`procBroadcastIp, stats`procNormalIp, stats`procBadIp, stats`procArp, stats`procBadArp
      modifies stats`arpInputErrors, stats`arpOpcodeErrors, stats`arpRequestsReceived, stats`arpAnswersReceived
      modifies stats`writeTotal, stats`writeFailed, stats`sendBadLength, stats`sendBadHost, stats`sendBadNetwork
      modifies stats`sendIpPackets, stats`sendArpPackets, stats`sendArpErr
      modifies stats`sendDequeued, stats`arpWaitQueued, stats`arpWaitDequeued, stats`arpWaitRequeued
      modifies this`arpPkt, this`statSdData, this`statDropped, this`discarded, this`arpwait, this`receive
      modifies cache`table, link`written, trace, trace.entry, op
      ensures Valid() && old(link.written) <= link.written
      ensures var kind := KindOf(old(Header()));
        && (kind.OtherType? ==> rc == -1 && stats.recvBad == old(stats.recvBad) + 1 && stats.recvGood == old(stats.recvGood))
        && (!kind.OtherType? ==> stats.recvGood == old(stats.recvGood) + 1 && stats.recvBad == old(stats.recvBad))
        && (kind.BroadcastIp? ==> rc == prev)
        && (kind.ArpFrame? ==> rc == (if ClassifyArp(old(ArpInBuffer())) == ArpAccepted then 0 else -1))
        && (!kind.ArpFrame? ==> fates == [])
      ensures var kind := KindOf(old(Header()));
        && (kind.UnicastIp? ==>
              var p := ParseIp(ipBuf[..], length, k.ttlStamp);
              && (rc == 0 <==> p.Some? && p.value in k.allocates && p.value in k.allocatesBlocks)
              && (rc != 0 ==> rc == -1)
              && receive == (if rc == 0 then Enqueue(old(receive), p.value) else old(receive))
              && discarded == if p.Some? && p.value in k.allocates && p.value !in k.allocatesBlocks
                              then old(discarded) + [p.value] else old(discarded))
        && (!kind.UnicastIp? ==> receive == old(receive))
        && (!kind.ArpFrame? ==> cache.table == old(cache.table) && arpwait == old(arpwait))
        && (kind.BroadcastIp? || kind.OtherType? ==> discarded == old(discarded))
        && (kind.ArpFrame? && rc != 0 ==>
              cache.table == old(cache.table) && arpwait == old(arpwait) && discarded == old(discarded))
        && (kind.ArpFrame? && rc == 0 ==>
              && Learned(old(cache.table), cache.table, old(ArpInBuffer()))
              && var live := Live(old(arpwait), k.expired);
              && |fates| == |live|
              && arpwait == Kept(live, fates)
              && discarded == old(discarded) + Gone(live, fates))
      ensures statDropped == old(statDropped) + Drops(fates)
    {
      fates := [];
      var eh := Header();
      if eh.etherType == ENET_TYPE_IP {
        rc := ReceiveIp(length, prev, k);
      } else if eh.etherType == ENET_TYPE_ARP {
        rc, fates := ReceiveArp(now, k);
      } else {
        stats.recvBad := stats.recvBad + 1;
        rc := -1;
      }
    }

    /**
     * The body of receive_dgrams' loop for one frame of `length` bytes in
     * the receive buffer: count it, hand it to the branch for its type,
     * and count its length in stat_rcv_data when the result is 0, or one
     * more dropped datagram otherwise. A broadcast IP frame leaves the
     * previous frame's result `prev` in place, so it counts as received or
     * dropped as that frame did; a frame of another type is bad (-1).
     */
    method ReceiveFrame(length: int, prev: int, now: uint32, k: Kernel) returns (rc: int, ghost fates: seq<Fate>)
      requires Valid()
      modifies stats`recvTotal, stats`recvGood, stats`recvBad
      modifies stats`procBroadcastIp, stats`procNormalIp, stats`procBadIp, stats`procArp, stats`procBadArp
      modifies stats`arpInputErrors, stats`arpOpcodeErrors, stats`arpRequestsReceived, stats`arpAnswersReceived
      modifies stats`writeTotal, stats`writeFailed, stats`sendBadLength, stats`sendBadHost, stats`sendBadNetwork
      modifies stats`sendIpPackets, stats`sendArpPackets, stats`sendArpErr
      modifies stats`sendDequeued, stats`arpWaitQueued, stats`arpWaitDequeued, stats`arpWaitRequeued
      modifies this`arpPkt, this`statSdData, this`statDropped, this`statRcvData, this`discarded, this`arpwait, this`receive
      modifies cache`table, link`written, trace, trace.entry, op
      ensures Valid() && old(link.written) <= link.written
      ensures stats.recvTotal == old(stats.recvTotal) + 1
      ensures var kind := KindOf(old(Header()));
        && (kind.OtherType? ==> rc == -1 && stats.recvBad == old(stats.recvBad) + 1 && stats.recvGood == old(stats.recvGood))
        && (!kind.OtherType? ==> stats.recvGood == old(stats.recvGood) + 1 && stats.recvBad == old(stats.recvBad))
        && (kind.BroadcastIp? ==> rc == prev)
        && (kind.ArpFrame? ==> rc == (if ClassifyArp(old(ArpInBuffer())) == ArpAccepted then 0 else -1))
        && (!kind.ArpFrame? ==> fates == [])
      ensures var kind := KindOf(old(Header()));
        && (kind.UnicastIp? ==>
              var p := ParseIp(ipBuf[..], length, k.ttlStamp);
              && (rc == 0 <==> p.Some? && p.value in k.allocates && p.value in k.allocatesBlocks)
              && (rc != 0 ==> rc == -1)
              && receive == (if rc == 0 then Enqueue(old(receive), p.value) else old(receive))
              && discarded == if p.Some? && p.value in k.allocates && p.value !in k.allocatesBlocks
                              then old(discarded) + [p.value] else old(discarded))
        && (!kind.UnicastIp? ==> receive == old(receive))
        && (!kind.ArpFrame? ==> cache.table == old(cache.table) && arpwait == old(arpwait))
        && (kind.BroadcastIp? || kind.OtherType? ==> discarded == old(discarded))
        && (kind.ArpFrame? && rc != 0 ==>
              cache.table == old(cache.table) && arpwait == old(arpwait) && discarded == old(discarded))
        && (kind.ArpFrame? && rc == 0 ==>
              && Learned(old(cache.table), cache.table, old(ArpInBuffer()))
              && var live := Live(old(arpwait), k.expired);
              && |fates| == |live|
              && arpwait == Kept(live, fates)
              && discarded == old(discarded) + Gone(live, fates))
      ensures statRcvData == old(statRcvData) + (if rc == 0 then length else 0)
      ensures statDropped == old(statDropped) + Drops(fates) + (if rc == 0 then 0 else 1)
    {
      stats.recvTotal := stats.recvTotal + 1;
      rc, fates := Route(length, prev, now, k);
      if rc == 0 {
        statRcvData := statRcvData + length;
      } else {
        statDropped := statDropped + 1;
      }
    }

    /**
     * receive_dgrams: on an active port, read frames until the transport
     * reports nothing pending or a failure, and handle each frame read.
     * Every frame that precedes the first fault is consumed, and the fault
     * (if any) with them; `prev` carries the previous frame's result from
     * one frame to the next, starting at 0.
     */
    method ReceiveDgrams(now: uint32, k: Kernel)
      requires Valid()
      modifies stats, this`arpPkt, this`statSdData, this`statDropped, this`statRcvData
      modifies this`discarded, this`arpwait, this`receive
      modifies cache`table, link`written, link`inbox, trace, trace.entry, op, ipBuf
      ensures Valid() && old(link.written) <= link.written
      ensures !active ==> unchanged(this, stats, cache, link, trace, trace.entry, op, ipBuf)
      ensures active ==>
        var n := LeadingFrames(old(link.inbox));
        && link.inbox == old(link.inbox)[Min(n + 1, |old(link.inbox)|)..]
        && stats.readTotal == old(stats.readTotal) + n + 1
        && stats.readFailed == old(stats.readFailed) + (if n < |old(link.inbox)| then 1 else 0)
        && stats.recvTotal == old(stats.recvTotal) + n
        && stats.recvGood + stats.recvBad == old(stats.recvGood) + old(stats.recvBad) + n
    {
      if !active {
        return;
      }
      ghost var inbox0 := link.inbox;
      ghost var c := 0;
      var prev := 0;
      while true
        invariant Valid() && old(link.written) <= link.written
        invariant c <= LeadingFrames(inbox0) && link.inbox == inbox0[c..]
        invariant stats.readTotal == old(stats.readTotal) + c && stats.readFailed == old(stats.readFailed)
        invariant stats.recvTotal == old(stats.recvTotal) + c
        invariant stats.recvGood + stats.recvBad == old(stats.recvGood) + old(stats.recvBad) + c
        decreases |link.inbox|
      {
        var got;
        got, prev := ReadOne(prev, now, k);
        if !got {
          break;
        }
        c := c + 1;
      }
    }

    /**
     * One turn of receive_dgrams' loop: read_device, and the frame handled
     * when one was read (`got`); otherwise the loop ends.
     */
    method ReadOne(prev: int, now: uint32, k: Kernel) returns (got: bool, rc: int)
      requires Valid()
      modifies stats, this`arpPkt, this`statSdData, this`statDropped, this`statRcvData
      modifies this`discarded, this`arpwait, this`receive
      modifies cache`table, link`written, link`inbox, trace, trace.entry, op, ipBuf
      ensures Valid() && old(link.written) <= link.written
      ensures got <==> old(link.inbox) != [] && old(link.inbox)[0].Frame?
      ensures link.inbox == if old(link.inbox) == [] then [] else old(link.inbox)[1..]
      ensures stats.readTotal == old(stats.readTotal) + 1
      ensures stats.readFailed == old(stats.readFailed) + (if old(link.inbox) != [] && !got then 1 else 0)
      ensures stats.recvTotal == old(stats.recvTotal) + (if got then 1 else 0)
      ensures stats.recvGood + stats.recvBad == old(stats.recvGood) + old(stats.recvBad) + (if got then 1 else 0)
    {
      var length := ReadDevice(now);
      got, rc := length > 0, prev;
      if got {
        ghost var fates;
        rc, fates := ReceiveFrame(length, prev, now, k);
      }
    }

    /** empty_queue: every datagram of `q`, in order, goes to IP_discard. */
    method EmptyQueue(q: seq<Dgram>)
      modifies this`discarded
      ensures discarded == old(discarded) + q
    {
      var i := 0;
      while i < |q|
        invariant 0 <= i <= |q|
        invariant discarded == old(discarded) + q[..i]
      {
        discarded := discarded + [q[i]];
        i := i + 1;
      }
      assert q[..i] == q;
    }

    /**
     * set_device_state: switching on brings the interface up; switching
     * off takes it down and discards both port queues, send first. Both
     * open_device and close_device always succeed, so the result is TRUE.
     */
    method SetDeviceState(state: bool) returns (ok: bool)
      modifies this`interfaceUp, this`send, this`receive, this`discarded
      ensures ok && interfaceUp == state
      ensures state ==> send == old(send) && receive == old(receive) && discarded == old(discarded)
      ensures !state ==> send == [] && receive == [] && discarded == old(discarded) + old(send) + old(receive)
    {
      if state {
        interfaceUp := true;
      } else {
        interfaceUp := false;
        EmptyQueue(send);
        send := [];
        EmptyQueue(receive);
        receive := [];
      }
      ok := true;
    }

    /** CTL_ETHER_CLR_STAT: every counter back to zero. */
    method ClearStatistics()
      modifies stats
      ensures stats.Zero()
    {
      stats.Clear();
    }

    /** CTL_ETHER_CLR_ARPTABLE: arp_init empties the cache. */
    method ClearArpTable()
      modifies cache`table
      ensures cache.table == map[]
    {
      cache.Init();
    }

    /** CTL_ETHER_CLR_TRACE: trace_init marks every slot of the trace table unused. */
    method ClearTrace()
      requires Valid()
      modifies trace.entry
      ensures Valid() && trace.InOrder()
      ensures forall i :: 0 <= i < trace.entry.Length ==> trace.entry[i] == old(trace.entry[i]).(time := 0)
    {
      trace.Init();
    }
  }
}
