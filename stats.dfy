/**
 * USBNET_STATS: the driver's event counters, one field per counter, bumped
 * in place by the routines that observe the events. The MAC addresses and
 * table sizes the structure also carries are filled in only when a copy is
 * handed out (CTL_ETHER_GET_STAT), which is not part of this model.
 */
module Stats {

  /** The two loops that dequeue datagrams and hand them to process_output. */
  datatype Loop = SendLoop | DrainLoop

  /** The counters of the queues feeding process_output: send.dequeued and arp.wait_*. */
  datatype WaitCounts = WaitCounts(sendDequeued: nat, waitQueued: nat, waitDequeued: nat, waitRequeued: nat)

  /**
   * `w` after a loop has dequeued `dequeued` datagrams and requeued
   * `requeued` of them on arpwait: send_dgrams counts them in send.dequeued
   * and arp.wait_queued, the drain of process_arp in arp.wait_dequeued and
   * arp.wait_requeued.
   */
  function Tick(w: WaitCounts, loop: Loop, dequeued: nat, requeued: nat): (r: WaitCounts)
    ensures loop.SendLoop? ==> r.waitDequeued == w.waitDequeued && r.waitRequeued == w.waitRequeued
    ensures loop.DrainLoop? ==> r.sendDequeued == w.sendDequeued && r.waitQueued == w.waitQueued
  {
    match loop
    case SendLoop => w.(sendDequeued := w.sendDequeued + dequeued, waitQueued := w.waitQueued + requeued)
    case DrainLoop => w.(waitDequeued := w.waitDequeued + dequeued, waitRequeued := w.waitRequeued + requeued)
  }

  /**
   * The number uatool reports as currently awaiting address resolution
   * (uatool.c:253): everything ever put on arpwait, less everything taken
   * off it.
   */
  function Awaiting(w: WaitCounts): (n: int)
    ensures n + w.waitDequeued == w.waitQueued + w.waitRequeued
  {
    w.waitQueued + w.waitRequeued - w.waitDequeued
  }

  /**
   * A loop's bookkeeping moves the awaiting count by what it put back on
   * arpwait less what the drain took off it.
   */
  lemma AwaitingAfterTick(w: WaitCounts, loop: Loop, dequeued: nat, requeued: nat)
    ensures Awaiting(Tick(w, loop, dequeued, requeued)) ==
      Awaiting(w) + requeued - (if loop.DrainLoop? then dequeued else 0)
  {
  }

  /** The counters process_output and the routines it calls may bump: write.*, send.* but dequeued. */
  datatype OutputCounts = OutputCounts(
    writeTotal: nat, writeFailed: nat,
    badLength: nat, badHost: nat, badNetwork: nat,
    ipPackets: nat, arpPackets: nat, arpErr: nat)

  /** write_device: one more write, and one more failure unless the transport accepted the frame. */
  function Written(c: OutputCounts, ok: bool): (r: OutputCounts)
    ensures r.writeTotal == c.writeTotal + 1
    ensures r.writeFailed == c.writeFailed + (if ok then 0 else 1)
    ensures r.(writeTotal := c.writeTotal, writeFailed := c.writeFailed) == c
  {
    c.(writeTotal := c.writeTotal + 1, writeFailed := c.writeFailed + (if ok then 0 else 1))
  }

  /** send_arp: the write, one more ARP packet, and one more ARP send error on failure. */
  function ArpSent(c: OutputCounts, ok: bool): (r: OutputCounts)
    ensures r.arpPackets == c.arpPackets + 1 && r.writeTotal == c.writeTotal + 1
    ensures r.arpErr == c.arpErr + (if ok then 0 else 1) && r.writeFailed == c.writeFailed + (if ok then 0 else 1)
    ensures r.ipPackets == c.ipPackets
  {
    var w := Written(c, ok);
    w.(arpPackets := c.arpPackets + 1, arpErr := c.arpErr + (if ok then 0 else 1))
  }

  /** The IP half of process_output: the write, and one more IP packet when it succeeded. */
  function IpWritten(c: OutputCounts, ok: bool): (r: OutputCounts)
    ensures r.ipPackets == c.ipPackets + (if ok then 1 else 0) && r.writeTotal == c.writeTotal + 1
    ensures r.arpPackets == c.arpPackets && r.arpErr == c.arpErr
  {
    var w := Written(c, ok);
    w.(ipPackets := c.ipPackets + (if ok then 1 else 0))
  }

  class UsbnetStats {
    /** read.*: every read_device call, and those the transport failed. */
    var readTotal: nat
    var readFailed: nat
    /** write.*: every write_device call, and those the transport failed. */
    var writeTotal: nat
    var writeFailed: nat
    /** receive.*: frames read, and how many had a known Ethernet type. */
    var recvTotal: nat
    var recvGood: nat
    var recvBad: nat
    /** process.*: what receive_dgrams did with the good frames. */
    var procBroadcastIp: nat
    var procNormalIp: nat
    var procArp: nat
    var procBadIp: nat
    var procBadArp: nat
    /** send.*: datagrams taken from port.send, rejected by process_output, and frames sent. */
    var sendDequeued: nat
    var sendBadLength: nat
    var sendBadHost: nat
    var sendBadNetwork: nat
    var sendIpPackets: nat
    var sendArpPackets: nat
    var sendArpErr: nat
    /** arp.*: ARP input handling and the arpwait queue. */
    var arpInputErrors: nat
    var arpOpcodeErrors: nat
    var arpRequestsReceived: nat
    var arpAnswersReceived: nat
    var arpWaitQueued: nat
    var arpWaitDequeued: nat
    var arpWaitRequeued: nat

    /** Every counter is zero. */
    predicate Zero()
      reads this
    {
      && readTotal == 0 && readFailed == 0 && writeTotal == 0 && writeFailed == 0
      && recvTotal == 0 && recvGood == 0 && recvBad == 0
      && procBroadcastIp == 0 && procNormalIp == 0 && procArp == 0 && procBadIp == 0 && procBadArp == 0
      && sendDequeued == 0 && sendBadLength == 0 && sendBadHost == 0 && sendBadNetwork == 0
      && sendIpPackets == 0 && sendArpPackets == 0 && sendArpErr == 0
      && arpInputErrors == 0 && arpOpcodeErrors == 0 && arpRequestsReceived == 0 && arpAnswersReceived == 0
      && arpWaitQueued == 0 && arpWaitDequeued == 0 && arpWaitRequeued == 0
    }

    /** The zeroed structure of a freshly installed port. */
    constructor ()
      ensures Zero()
    {
      readTotal := 0; readFailed := 0; writeTotal := 0; writeFailed := 0;
      recvTotal := 0; recvGood := 0; recvBad := 0;
      procBroadcastIp := 0; procNormalIp := 0; procArp := 0; procBadIp := 0; procBadArp := 0;
      sendDequeued := 0; sendBadLength := 0; sendBadHost := 0; sendBadNetwork := 0;
      sendIpPackets := 0; sendArpPackets := 0; sendArpErr := 0;
      arpInputErrors := 0; arpOpcodeErrors := 0; arpRequestsReceived := 0; arpAnswersReceived := 0;
      arpWaitQueued := 0; arpWaitDequeued := 0; arpWaitRequeued := 0;
    }

    /** CTL_ETHER_CLR_STAT: memset of the whole structure to zero. */
    method Clear()
      modifies this
      ensures Zero()
    {
      ClearInput();
      ClearOutput();
      ClearArp();
    }

    /** The read.*, receive.* and process.* part of the memset. */
    method ClearInput()
      modifies this`readTotal, this`readFailed, this`recvTotal, this`recvGood, this`recvBad
      modifies this`procBroadcastIp, this`procNormalIp, this`procArp, this`procBadIp, this`procBadArp
      ensures readTotal == 0 && readFailed == 0 && recvTotal == 0 && recvGood == 0 && recvBad == 0
      ensures procBroadcastIp == 0 && procNormalIp == 0 && procArp == 0 && procBadIp == 0 && procBadArp == 0
    {
      readTotal := 0; readFailed := 0;
      recvTotal := 0; recvGood := 0; recvBad := 0;
      procBroadcastIp := 0; procNormalIp := 0; procArp := 0; procBadIp := 0; procBadArp := 0;
    }

    /** The write.* and send.* part of the memset. */
    method ClearOutput()
      modifies this`writeTotal, this`writeFailed, this`sendDequeued, this`sendBadLength, this`sendBadHost
      modifies this`sendBadNetwork, this`sendIpPackets, this`sendArpPackets, this`sendArpErr
      ensures writeTotal == 0 && writeFailed == 0 && sendDequeued == 0 && sendBadLength == 0 && sendBadHost == 0
      ensures sendBadNetwork == 0 && sendIpPackets == 0 && sendArpPackets == 0 && sendArpErr == 0
    {
      writeTotal := 0; writeFailed := 0;
      sendDequeued := 0; sendBadLength := 0; sendBadHost := 0; sendBadNetwork := 0;
      sendIpPackets := 0; sendArpPackets := 0; sendArpErr := 0;
    }

    /** The arp.* part of the memset. */
    method ClearArp()
      modifies this`arpInputErrors, this`arpOpcodeErrors, this`arpRequestsReceived, this`arpAnswersReceived
      modifies this`arpWaitQueued, this`arpWaitDequeued, this`arpWaitRequeued
      ensures arpInputErrors == 0 && arpOpcodeErrors == 0 && arpRequestsReceived == 0 && arpAnswersReceived == 0
      ensures arpWaitQueued == 0 && arpWaitDequeued == 0 && arpWaitRequeued == 0
    {
      arpInputErrors := 0; arpOpcodeErrors := 0; arpRequestsReceived := 0; arpAnswersReceived := 0;
      arpWaitQueued := 0; arpWaitDequeued := 0; arpWaitRequeued := 0;
    }

    /** A loop took one datagram off its queue: send.dequeued or arp.wait_dequeued. */
    method CountDequeued(loop: Loop)
      modifies this`sendDequeued, this`arpWaitDequeued
      ensures Waits() == Tick(old(Waits()), loop, 1, 0)
    {
      if loop.SendLoop? {
        sendDequeued := sendDequeued + 1;
      } else {
        arpWaitDequeued := arpWaitDequeued + 1;
      }
    }

    /** A loop put one datagram (back) on arpwait: arp.wait_queued or arp.wait_requeued. */
    method CountRequeued(loop: Loop)
      modifies this`arpWaitQueued, this`arpWaitRequeued
      ensures Waits() == Tick(old(Waits()), loop, 0, 1)
    {
      if loop.SendLoop? {
        arpWaitQueued := arpWaitQueued + 1;
      } else {
        arpWaitRequeued := arpWaitRequeued + 1;
      }
    }

    /** The arpwait counters, as a value. */
    function Waits(): WaitCounts
      reads this`sendDequeued, this`arpWaitQueued, this`arpWaitDequeued, this`arpWaitRequeued
    {
      WaitCounts(sendDequeued, arpWaitQueued, arpWaitDequeued, arpWaitRequeued)
    }

    /** The counters of process_output, as a value. */
    function Output(): OutputCounts
      reads this`writeTotal, this`writeFailed, this`sendBadLength, this`sendBadHost, this`sendBadNetwork
      reads this`sendIpPackets, this`sendArpPackets, this`sendArpErr
    {
      OutputCounts(writeTotal, writeFailed, sendBadLength, sendBadHost, sendBadNetwork,
                   sendIpPackets, sendArpPackets, sendArpErr)
    }
  }

  /** A cleared structure reports nothing awaiting address resolution. */
  lemma ClearedAwaitsNothing(s: UsbnetStats)
    requires s.Zero()
    ensures Awaiting(s.Waits()) == 0
  {
  }
}
