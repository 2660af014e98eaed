# STinG USB network port driver and its reporting tool, in Dafny

This project models two programs from the USB networking package for the STinG TCP/IP stack on Atari computers:

- **The port driver** (`driver/usbsting.c`). It moves IPv4 datagrams between the STinG kernel and a USB Ethernet adapter (ASIX or PicoWifi). The model covers:
  - the intrusive datagram queues: `port.send`, `port.receive`, and `arpwait` for datagrams waiting for address resolution;
  - the output decision of `process_output`: the length check, the host-part check, the next-hop choice, then an ARP request on a cache miss or an Ethernet II frame on a hit;
  - the acceptance of inbound IP frames (`process_ip`);
  - ARP handling (`process_arp`, `send_arp`) and the drain of `arpwait`;
  - the two port loops (`send_dgrams`, `receive_dgrams`) with their statistics counters;
  - `write_device` and `read_device`;
  - the round-robin trace table (`trace`, `trace_init`);
  - the parts of `set_device_state` and `control_device` that change driver state.
- **`uatool`** (`tool/uatool.c`), the command-line reporting tool. The model covers:
  - its `-c` option scan and the exit code of clear mode;
  - the "awaiting address resolution" line of the statistics report;
  - `format_macaddr`;
  - `find_first_entry` and the trace display order.

How the model is written:

- **The driver's port** is a Dafny class, `Driver.Port`:
  - its queues are `seq<Dgram>` fields;
  - its frame buffers `op` and `ip` are arrays;
  - its counters are fields of the `Stats.UsbnetStats` class;
  - the ARP cache, the USB transport and the trace table are objects it owns.
- **The collaborators** are abstractions, because their code is not part of this model:
  - the ARP cache of `arpcache.h` is a finite map;
  - the transport is a log of frames written, an oracle for write results, and a finite queue of arrivals;
  - the kernel services are a `Kernel` value: TTL expiry, `KRmalloc` success, the TTL stamp, and `hz_200`.
- **Proofs against specifications.** Every loop and state-changing routine is proved against a specification function:
  - `Dequeued` and `Live` for the queues;
  - `Classify` and `FateOf` for `process_output`;
  - `ParseIp` for `process_ip`;
  - `Kept`, `Gone`, `Drops` and `Bytes` for a whole port loop;
  - `Visible(Walk(...))` for the trace display.
- **Wire formats.** Frames are `seq<bv8>` in network byte order, the Atari's native order. A `memcpy` of an `IP_HDR` therefore equals its encoding.

Behaviour of the code that the model keeps as written:

- **`receive_dgrams` does not reset `rc` per frame.** A broadcast IP frame is not handed to IP, yet it is added to `stat_rcv_data` or `stat_dropped` according to the result of the frame before it (`Driver.Port.ReceiveFrame`).
- **The cache learns from any valid ARP message.** `process_arp` enters or updates the sender's address for every structurally valid ARP message. RFC 826 adds an entry only when this host is the target (`Driver.Port.Learn`).
- **Clear mode can mask a failed ARP clear.** When both an ARP clear and a trace clear are requested, the trace clear's result overwrites `rc2` (`UaTool.ClearExitCode`).
- **`bad_host` tests the literal `0xff`.** The code, commented "host 0 or ff", compares the host part with the literal `0xff`. That equals the all-ones host part only for a /24 mask (`Output.Classify`).

## Model

| member | source | states |
|---|---|---|
| Codec.EncodeDecodeIpHdr | include/transprt.h:208-223 | An IP_HDR written as its 20 network-order bytes reads back field for field. |
| Codec.DecodeEncodeIpHdr | include/transprt.h:208-223 | Any 20 bytes read as an IP_HDR and written back are unchanged, so copying a header through the record loses nothing. |
| Codec.EncodeDecodeEnetHdr | driver/usbsting.c:747-749 | An Ethernet header (destination, source, type) reads back from its 14 bytes. |
| Codec.EncodeDecodeArp | driver/usbsting.c:826-866 | An ARP message reads back field for field from its 28 bytes. |
| Codec.EncodeDecodeArpPacket | driver/usbsting.c:910-926 | The arp_enet_pkt bytes written read back as its Ethernet header followed by its ARP message. |
| DgramQueue.Dequeue | driver/usbsting.c:656-668 | dequeue_dgram unlinks the maximal prefix of expired datagrams and returns the first live one with the unchanged rest of the queue behind it. It returns nothing, with an empty queue, when every datagram is expired. |
| DgramQueue.Enqueue | driver/usbsting.c:673-681 | queue_dgram leaves the old queue followed by the new datagram, at the tail. |
| DgramQueue.LiveIsLive | driver/usbsting.c:656-668 | The datagrams a queue hands out are its own, none expired, in queue order. Together with the expired ones they split the queue. |
| DgramQueue.DequeuedIsFirstLive | driver/usbsting.c:656-668 | Dequeuing returns the head of the live datagrams, and the live datagrams behind it are exactly those of the remaining queue. It returns nothing exactly when no datagram is live. |
| DgramQueue.LiveAppend | driver/usbsting.c:673-681 | Appending at the tail appends to the live datagrams. |
| DgramQueue.DequeueAfterEnqueue | driver/usbsting.c:656-681 | First in, first out: an appended datagram comes out after every live datagram already queued, and does not disturb them. |
| DgramQueue.InterleavesSplits | driver/usbsting.c:491-514 | Two queues that split a sequence in order hold exactly its datagrams, as a multiset, and its length between them. |
| Output.EnetLengthAsWritten | driver/usbsting.c:696 | The uint16 sum stored in the int16 enet_length is the frame length, or that length less 0x10000 once it reaches 0x8000. |
| Output.OversizeDgramPassesAsWritten | driver/usbsting.c:696-701 | A datagram with 32767 data bytes passes the length test as written although its frame exceeds ETH_MAX_LEN. |
| Output.LengthTestsAgreeWithoutWrap | driver/usbsting.c:696-701 | Wherever the sum does not wrap, the test as written accepts exactly the frames of at most ETH_MAX_LEN bytes. |
| Output.NextHop | driver/usbsting.c:704-729 | The next hop is the destination when it is on the port's subnet, otherwise the gateway when that is. There is none exactly when neither is on the subnet. |
| Output.Classify | driver/usbsting.c:696-729 | The checks run in order. The datagram is too long exactly when its frame exceeds ETH_MAX_LEN. Otherwise the host is rejected exactly when the host part is 0 or 0xff. Otherwise it is unreachable exactly when there is no next hop. Otherwise it is delivered to that hop. |
| Output.IpFrame | driver/usbsting.c:747-758 | The frame built for a cache hit is the padded length: between ETH_MIN_LEN and ETH_MAX_LEN bytes. |
| Output.IpFrameLayout | driver/usbsting.c:747-758 | The frame reads back as an Ethernet II header from source to destination for IP, then the datagram's header, its options and data, then zero bytes. |
| Output.InitialTemplate | driver/usbsting.c:398-403 | install() zeroes the ARP template and sets its Ethernet/IPv4 ARP fixed fields. |
| Output.AsRequest | driver/usbsting.c:736-739 | Turning the template into a request keeps its fixed fields. |
| Output.AsReply | driver/usbsting.c:863-866 | Turning the template into a reply keeps its fixed fields. |
| Output.WithSender | driver/usbsting.c:914-916 | Setting our addresses as the sender keeps the template's fixed fields. |
| Output.RequestOnWire | driver/usbsting.c:731-742 | The request sent on a cache miss is broadcast, opcode REQ, asks for the next hop, comes from our addresses, and has the Ethernet/IPv4 header fields. |
| Output.ReplyOnWire | driver/usbsting.c:858-867 | The reply to a request for our address goes to the requester, has opcode ANS, answers for the requested address with our hardware address, and is addressed to the requester's IP. |
| Input.StaleBytesAcceptedAsWritten | driver/usbsting.c:776-782 | A 60-byte frame whose IP Total Length is 60 passes the checks as written, although its datagram ends 14 bytes past the frame. |
| Input.IntendedChecksNarrowAsWritten | driver/usbsting.c:776-782 | The corrected checks accept exactly the frames the written checks accept whose datagram lies inside the frame. |
| Input.ParseIp | driver/usbsting.c:776-800 | A datagram is built exactly when the checks pass. It has the received header, hd_len*4-20 option bytes, Total Length - hd_len*4 data bytes, and the kernel's TTL stamp. |
| Input.ParsedIsFrameBytes | driver/usbsting.c:787-800 | Header, options and data together are exactly the frame bytes after the Ethernet header up to the Total Length. |
| Input.FrameRoundTrip | driver/usbsting.c:747-800 | A frame that process_output writes for a consistent datagram, received into a buffer with any other contents, parses back to the same header, options and data. |
| Input.ClassifyArp | driver/usbsting.c:826-843 | An input error exactly when the hardware or protocol space or length is wrong. Otherwise an opcode error exactly when the opcode is neither REQ nor ANS. Otherwise accepted. |
| Input.SentArpAccepted | driver/usbsting.c:731-742 | Every request and reply the driver sends passes the driver's own ARP checks. |
| ArpCacheModel.ArpCache.Lookup | driver/usbsting.c:731 | arp_cache finds an address exactly when it is cached, and returns the cached hardware address. |
| ArpCacheModel.ArpCache.Enter | driver/usbsting.c:852 | arp_enter caches the address. It may evict other entries but never invents or alters one. |
| ArpCacheModel.ArpCache.Update | driver/usbsting.c:853 | The in-place memcpy replaces the cached hardware address and keeps the same set of addresses. |
| ArpCacheModel.ArpCache.Init | driver/usbsting.c:626-628 | arp_init empties the cache. |
| UsbLink.Link.Send | driver/usbsting.c:973-976 | The transport logs the frame and reports its status for that write. |
| UsbLink.Link.Receive | driver/usbsting.c:1001-1004 | The transport delivers the next frame (its length and bytes), a negative code, or 0 when nothing is pending. |
| Trace.Recorded | driver/usbsting.c:1069-1074 | A trace slot gets the time, rc, type and length. The first min(USBNET_TRACE_LEN, length) data bytes are copied and the rest are kept. Nothing is copied for a length of 0 or less. |
| Trace.RotateAfterWrite | driver/usbsting.c:1068-1076 | Writing slot next and advancing next, read from next, drops the oldest entry and appends the new one. |
| Trace.WriteKeepsChronological | driver/usbsting.c:1068-1076 | If the ring read from next is in time order and the new time is the latest, it stays in time order after the write. |
| Trace.TraceTable.Init | driver/usbsting.c:1052-1059 | trace_init zeroes every time and nothing else, and leaves next where it was. |
| Trace.TraceTable.Trace | driver/usbsting.c:1064-1077 | trace overwrites slot next with the record and advances next, wrapping from last to first. first <= next < last still holds, and time order is kept. |
| Stats.AwaitingAfterTick | driver/usbsting.c:491-514 | A port loop moves the awaiting count by the datagrams it requeued, less those the drain took off arpwait. |
| Stats.Written | driver/usbsting.c:971-983 | write_device adds one write, adds one failure unless the transport accepted the frame, and changes no other counter. |
| Stats.ArpSent | driver/usbsting.c:918-923 | send_arp adds one ARP packet and one write, and one ARP error and one write failure on failure. |
| Stats.IpWritten | driver/usbsting.c:759-761 | A cache-hit send adds one write, and one IP packet only when the write succeeded. |
| Stats.UsbnetStats.Clear | driver/usbsting.c:620-622 | CTL_ETHER_CLR_STAT zeroes every counter. |
| Stats.UsbnetStats.CountDequeued | driver/usbsting.c:493 | A loop counts one datagram dequeued, in send.dequeued or arp.wait_dequeued. |
| Stats.UsbnetStats.CountRequeued | driver/usbsting.c:502-503 | A loop counts one datagram put on arpwait, in arp.wait_queued or arp.wait_requeued. |
| Stats.ClearedAwaitsNothing | tool/uatool.c:253-255 | After a clear, the report shows nothing awaiting resolution. |
| Outcome.KeptGoneInterleave | driver/usbsting.c:491-514 | The datagrams a loop requeues and the ones it discards split what it dequeued, each in dequeue order. |
| Outcome.KeptGoneSplit | driver/usbsting.c:877-905 | Every dequeued datagram is either requeued or discarded, never both, and none is lost or duplicated. |
| Outcome.NoneDeferred | driver/usbsting.c:491-514 | A run in which nothing is deferred requeues nothing and discards everything, in order. |
| Driver.Rejected | driver/usbsting.c:696-729 | A rejected datagram adds exactly one to exactly one of bad_length, bad_host and bad_network, the one matching its verdict, and leaves every other counter alone. |
| Driver.SettlesMeans | driver/usbsting.c:731-763 | A datagram is deferred exactly when it is routable and its hop is not cached. It is sent only when the hop is cached, with its IP length. It is always dropped when a check rejects it. |
| Driver.AllSettleAt | driver/usbsting.c:491-514 | A whole run's outcomes hold datagram by datagram. |
| Driver.KeptAwaitResolution | driver/usbsting.c:495-504 | Everything a loop puts on arpwait is routable and its next hop is not cached. |
| Driver.LeadingFrames | driver/usbsting.c:530 | The frames read before the first fault or the end of input are all frames, and the one after them, if any, is a fault. |
| Driver.KindOf | driver/usbsting.c:533-555 | The branch of receive_dgrams: IP exactly for ENET_TYPE_IP, split by broadcast destination; ARP exactly for ENET_TYPE_ARP. |
| Driver.Port.constructor | driver/usbsting.c:428-455 | A new port is inactive. Its queues are empty, its counters zero, its cache empty, its ARP template holds the fixed fields, and its trace table is all unused with next at first. |
| Driver.Port.WriteDevice | driver/usbsting.c:967-987 | The frame is written and traced. The result is 0 or, when the transport failed, -1. The write counters are bumped. |
| Driver.Port.ReadDevice | driver/usbsting.c:995-1015 | One read is counted. The result is the frame length with the frame in the buffer, 0 when nothing is pending (not traced), or -1 on a fault (counted as failed). A frame or a fault writes one trace entry (kind read, the frame length or the fault code as both rc and length, the receive buffer as data) into the next slot, which then advances. |
| Driver.Port.SendArp | driver/usbsting.c:910-926 | Our addresses go into the template and the packet is written. The ARP counters are bumped, and a successful send adds 42 bytes to stat_sd_data. |
| Driver.Port.ProcessOutput | driver/usbsting.c:689-764 | A rejected datagram gives -1, bumps its counter and writes nothing: the transport, the ARP packet, the trace and the output buffer are unchanged. A datagram whose hop is not cached gives 0 after a broadcast request for that hop. Otherwise the padded frame goes to the cached address and the result is the IP length, or -1 when the write fails. |
| Driver.Port.Forward | driver/usbsting.c:731-763 | A cache miss requests the hop and defers. A hit sends the frame to the cached address. |
| Driver.Port.TransmitIp | driver/usbsting.c:747-763 | op holds the padded frame and exactly that frame is written. The result is the IP length, or -1 on failure. |
| Driver.Port.Attempt | driver/usbsting.c:689-764 | process_output's result is the one the datagram's fate gives: 0 deferred, -1 dropped, the length sent. |
| Driver.Port.Settle | driver/usbsting.c:493-513 | One loop turn: the datagram is counted as dequeued and meets its fate. A deferred datagram is counted as requeued. Any other datagram is discarded and counted in stat_dropped or stat_sd_data. |
| Driver.Port.Dispose | driver/usbsting.c:494-513 | The switch on process_output's result: 0 requeues, -1 discards and counts a drop, a length discards and adds it to stat_sd_data. |
| Driver.Port.Turn | driver/usbsting.c:491-494 | dequeue_dgram yields the first live datagram and leaves the others live. When nothing is live, the loop ends having changed nothing. |
| Driver.Port.RunLoop | driver/usbsting.c:491-514 | Every live datagram is handled once, in order, and meets its fate. The deferred ones are appended to the target queue and the rest are discarded. Drops, bytes sent and the wait counters add up over the run, and the source queue ends empty. |
| Driver.Port.DrainArpWait | driver/usbsting.c:877-905 | Each live datagram of the old arpwait is retried once. The new arpwait is exactly the deferred ones in their old order, and the rest are discarded and counted. |
| Driver.Port.SendDgrams | driver/usbsting.c:474-515 | An inactive port is left alone: no field of the port, its counters, link or trace changes. Otherwise port.send ends empty, deferred datagrams are appended to arpwait in order, and the others are discarded with the counters summed over the run. |
| Driver.Port.ProcessIp | driver/usbsting.c:771-811 | 0 exactly when the corrected checks (`Input.IpChecksOk`, see Findings) pass and allocation succeeds; the datagram then goes at the tail of port.receive. Otherwise -1 with port.receive unchanged; a datagram whose blocks could not be allocated is discarded. |
| Driver.Port.Learn | driver/usbsting.c:851-853 | Afterwards the cache maps the sender's IP to its hardware address. No other entry is invented or altered, and an existing entry is overwritten in place. |
| Driver.Port.Answer | driver/usbsting.c:858-871 | A request for our address is counted and answered with a reply to the requester. An answer for our address is counted. Anything else writes and counts nothing. |
| Driver.Port.Respond | driver/usbsting.c:851-871 | The cache learns the sender, updating a cached entry in place and changing no other entry. A reply is written exactly for a request for our address. requests_received counts a request for our address, and answers_received counts any other message for it. |
| Driver.Port.Accept | driver/usbsting.c:851-907 | The sender is learned as in Respond, with the same request and answer counts, and a request for our address is answered. Then arpwait is drained: the deferred datagrams stay in order, the rest are discarded and counted, and the wait counters move by the drain's dequeues and requeues. |
| Driver.Port.ProcessArp | driver/usbsting.c:818-908 | A malformed message gives -1 and counts an input error. A bad opcode gives -1 and counts an opcode error. Either leaves the cache, queues, transport, ARP packet, trace, output buffer and every other counter untouched. A valid message gives 0 after learning, answering and draining as in Accept, with Accept's cache, counter and queue effects. |
| Driver.Port.ReceiveIp | driver/usbsting.c:534-544 | A broadcast IP frame is counted and leaves the previous result. Any other frame goes through process_ip: the result is 0 exactly when the parsed datagram is accepted and allocated, and it is then appended to port.receive; a failure is counted as a bad IP packet, and a datagram whose blocks could not be allocated is discarded. |
| Driver.Port.ReceiveArp | driver/usbsting.c:545-550 | An ARP frame is counted and its result is process_arp's. A failure is counted as a bad ARP packet and leaves the cache, arpwait and the discards alone. A success learns the sender and drains arpwait: the deferred datagrams stay in order and the rest are discarded. |
| Driver.Port.Route | driver/usbsting.c:533-555 | The switch on the frame type. A frame of another type is bad (-1); the others are good. The broadcast IP frame keeps the previous result. A unicast IP frame has process_ip's result and effect on port.receive and the discards; an ARP frame has process_arp's result, and on success its cache update and drain. The cache and arpwait change only for an ARP frame, and port.receive only for a unicast IP frame. |
| Driver.Port.ReceiveFrame | driver/usbsting.c:532-559 | One frame is counted, with Route's result and its effect on port.receive, the cache, arpwait and the discards. Result 0 adds the length to stat_rcv_data; any other result adds one drop, including a broadcast frame whose predecessor failed. |
| Driver.Port.ReadOne | driver/usbsting.c:530 | One read_device call. A frame is handled; nothing pending or a fault ends the loop. |
| Driver.Port.ReceiveDgrams | driver/usbsting.c:520-561 | An inactive port is left alone: no field of the port, its counters, cache, link, trace or buffer changes. Otherwise every frame before the first fault is read and handled, and the fault (if any) is consumed. There is one read more than the frames, and the receive counters grow by the frames. |
| Driver.Port.EmptyQueue | driver/usbsting.c:928-939 | empty_queue discards every datagram of the queue, in order. |
| Driver.Port.SetDeviceState | driver/usbsting.c:564-586 | Switching on brings the interface up. Switching off takes it down and discards port.send then port.receive. Either way the result is TRUE. |
| Driver.Port.ClearStatistics | driver/usbsting.c:620-622 | CTL_ETHER_CLR_STAT zeroes every counter. |
| Driver.Port.ClearArpTable | driver/usbsting.c:626-628 | CTL_ETHER_CLR_ARPTABLE empties the cache. |
| Driver.Port.ClearTrace | driver/usbsting.c:633-635 | CTL_ETHER_CLR_TRACE marks every trace slot unused and keeps the table in order. |
| UaTool.FoldedMatches | tool/uatool.c:88-92 | c \| 0x20 equals a lower-case letter exactly for that letter and its upper-case form. |
| UaTool.ClearRun | tool/uatool.c:83-99 | The options read before usage() stops the scan are all -c options, and the one after them is another option. |
| UaTool.ClearRequest.CountLetters | tool/uatool.c:86-94 | clear_arp grows by the number of 'a'/'A' in the argument, and clear_trace by the number of 't'/'T'. |
| UaTool.ClearRequest.ScanOptions | tool/uatool.c:83-100 | Each -c, with or without an argument, adds one to clear_stats, and its letters are counted. The scan succeeds exactly when every option is -c. |
| UaTool.ClearExitCode | tool/uatool.c:132-150 | The exit code is min(rc, rc2). It is 0 when every requested clear succeeded and negative when the statistics clear failed. With a trace clear it is min(rc, trace result), so a failed ARP clear is then not reported. |
| UaTool.AwaitingLine | tool/uatool.c:253-255 | The line is printed exactly when queued + requeued differs from dequeued, and it shows that difference. |
| UaTool.HexDigit | tool/uatool.c:420 | A digit of %02x is a lower-case hex digit. |
| UaTool.FormatMacaddr | tool/uatool.c:416-423 | The text is 17 characters long: a ':' at every third position and a lower-case hex digit everywhere else. |
| UaTool.FormatMacaddrRoundTrip | tool/uatool.c:416-423 | The text is six two-digit hex groups separated by ':'. Read back, it gives the same six bytes in order. |
| UaTool.FindFirstEntry | tool/uatool.c:341-355 | The index is 0 for an empty table, otherwise in range. Its time is no greater than any other, and it is the lowest such index (strict <). |
| UaTool.Walk | tool/uatool.c:276-281 | The two loops visit first..entries-1 and then 0..first-1. |
| UaTool.WalkVisitsEachOnce | tool/uatool.c:276-281 | The walk visits every index exactly once. |
| UaTool.VisibleMembers | tool/uatool.c:277-280 | An index is displayed exactly when it is walked and its time is not 0. |
| UaTool.VisibleDistinct | tool/uatool.c:277-280 | No entry is displayed twice when the walk visits each index once. |
| UaTool.VisibleKeepsOrder | tool/uatool.c:277-280 | Skipping unused entries keeps the time order of the walk. |
| UaTool.ShownOnce | tool/uatool.c:275-281 | Exactly the entries in use are displayed, each once. |
| UaTool.ShownInOrder | tool/uatool.c:275-281 | When the walk starts at the ring's oldest slot, the entries are displayed in time order. |
| UaTool.DisplayTrace | tool/uatool.c:259-288 | The display starts at find_first_entry and lists the in-use entries in walk order. |
| UaTool.FirstEntryOfRing | tool/uatool.c:341-355 | For a table written round-robin, find_first_entry returns the oldest slot unless the oldest time ties with an earlier slot at index 0. |
| UaTool.TiedTimesShownOutOfOrder | tool/uatool.c:275-281 | For times [5,7,5] with next = 2, the display shows 5, 7, 5: not in time order. |
| UaTool.FindRingStart | tool/uatool.c:341-355 | The corrected search returns a slot whose predecessor is later, or any slot when there is no such drop. |
| UaTool.RingStartIsChronological | tool/uatool.c:341-355 | For a table written round-robin, the ring read from the corrected start is in time order. |
| UaTool.DisplayTraceInOrder | tool/uatool.c:259-288 | The corrected display starts at the ring start and lists the in-use entries in walk order. |
| UaTool.InOrderShownInOrder | tool/uatool.c:275-281 | The corrected display is always in time order. |
| UaTool.FirstEntryShownInOrder | tool/uatool.c:275-281 | When find_first_entry does return the oldest slot, the original display is in time order. |

## Left out

- Driver registration and bootstrap are not part of this model, because they are operating-system plumbing: `_init`, `install`, the cookie lookups, `allocmem`, `quit`, `display_message` and the USB probe and ioctl entry points.
- The `EXTPORT_MAGIC` check in the port loops is not modelled. A `Driver.Port` is always a well-formed extended port.
- `get_mac_address` and the `control_device` requests that only copy data out are not part of this model: GET_STAT, GET_ARPTABLE, GET_TRACE, SET/GET_MAC, and the type queries. These are supervisor-mode hardware reads and `memcpy` into caller buffers.
- The port's IP address and mask are fixed when the port is made. The STinG kernel sets them and no routine of the driver writes them.
- The ARP cache's code (`arpcache.h`) is not part of this model. Its replacement policy is left open: inserting an address may evict others.
- The STinG kernel services are oracles in a `Kernel` value, and `hz_200` is the parameter `now`: `check_dgram_ttl`, `set_dgram_ttl`, `KRmalloc`. `IP_discard` is the log `discarded`.
- The USB transport (ASIX or PicoWifi) is an oracle. It delivers frames of 1 to ETH_MAX_LEN bytes or negative codes, and reports a status per write.
- Counters, `stat_*` fields and times are unbounded integers (`uint32` for times), so their 32-bit wrap-around is not modelled.
- Concurrency is not modelled. The driver routines run one at a time, as STinG polls the port.
- Driver.Port.SetDeviceState: `open_device` and `close_device` always return 0, so their failure branches are not modelled.
- Input.ParseIp: `process_ip` leaves `ip_gateway` unset (whatever `KRmalloc` returned) and stores the `recvd` port pointer. The model sets the gateway to 0 and has no back pointer.
- Input.ParseIp: it uses the corrected Total Length check (see Findings). The check as written is `Input.IpChecksAsWritten`.
- Driver.Port.ProcessIp, Driver.Port.ReceiveIp, Driver.Port.Route, Driver.Port.ReceiveFrame: they inherit the corrected Total Length check from `Input.ParseIp`, so a frame whose Total Length exceeds the frame length less the 14-byte Ethernet header is rejected in the model where the code as written accepts it (see Findings).
- Output.Classify: it uses the corrected length check (see Findings). The check as written is `Output.LengthPassesAsWritten`.
- Driver.Port.ProcessOutput, Driver.Port.Attempt, Driver.Port.Settle, Driver.Port.RunLoop, Driver.Port.DrainArpWait, Driver.Port.SendDgrams, Driver.Port.Accept, Driver.Port.ProcessArp, Driver.Port.ReceiveArp, Driver.Port.Route, Driver.Port.ReceiveFrame, Driver.SettlesMeans, Driver.KeptAwaitResolution: they take their verdict from `Output.Classify` or `Driver.FateOf`, so they inherit its corrected length check. A datagram whose frame length sum reaches 0x8000 is rejected as too long, with -1, a bad_length count and a drop. The code as written passes it on to the host and route checks, so on a cache miss it is deferred onto arpwait with result 0.
- Driver.Port.ReceiveDgrams: it states the read and receive counters over the whole run. What each frame does to port.receive, arpwait, the discards, the cache, `stat_rcv_data` and `stat_dropped` is stated per frame by `Driver.Port.ReceiveFrame`, not summed over the run.
- Driver.Port.ReceiveArp: for an accepted message it states the cache update and the drain's effect on arpwait and the discards. The reply and the ARP and wait counters are stated by `Driver.Port.ProcessArp`.
- UaTool.ClearRequest.ScanOptions: `getopt` is modelled as the sequence of options it returns. The in-place lower-casing of `optarg` is not modelled, because the argument is not read again. `usage()` ending the program is the result `false`.
- UaTool.DisplayTrace: the trace table fetched with CTL_ETHER_GET_TRACE is a read-only `seq` of entries rather than the `calloc` array. The results of `calloc` and `cntrl_port` failures (-1) are not modelled. The early return for an empty table is the empty display.
- All output of `uatool` is not modelled: the `fprintf` text, `display_arp`, the rest of `display_statistics`, `display_trace_entry`, `display_packet`, `display_ip_header`, `display_hex`, `fopen` of the report file, and the cookie and `cntrl_port` plumbing.
- C bitfield layout is not modelled: `IP_HDR` is encoded field by field in network byte order, which is the Atari's memory order.

## Findings

| source | as written | input that shows it | evidently intended | confidence | as-written member | corrected member |
|---|---|---|---|---|---|---|
| driver/usbsting.c:696-701 | The frame length is summed as uint16 and stored in the int16 `enet_length`, so a sum of 0x8000 or more becomes negative and passes `enet_length > ETH_MAX_LEN`. | A datagram with no options and `pkt_length` 32767: the sum is 32801, stored as -32735, accepted, then copied past the end of `op`. | Reject every datagram whose frame is longer than ETH_MAX_LEN bytes. | not executed | Output.OversizeDgramPassesAsWritten | Output.LengthTestsAgreeWithoutWrap |
| driver/usbsting.c:778 | The IP Total Length is compared with the frame length, which includes the 14-byte Ethernet header. | A 60-byte frame whose header has hd_len 5 and Total Length 60: accepted, and the datagram takes 14 bytes from beyond the frame (stale buffer contents). | Require Total Length <= frame length - 14, so that the datagram lies inside the bytes received. | not executed | Input.StaleBytesAcceptedAsWritten | Input.IntendedChecksNarrowAsWritten |
| tool/uatool.c:341-355 | `find_first_entry` takes the lowest index with the minimum time as the oldest entry, and `display_trace` starts there. With several events in one 5 ms tick of `hz_200`, the oldest slot's time can tie with a slot at a lower index. | A 3-slot table with times [5, 7, 5] and next = 2 (written in the order 2, 0, 1): the search returns 0 and the display shows 5, 7, 5. | Start at the oldest slot, where the ring's time drops, so that the display is in time order. | not executed | UaTool.TiedTimesShownOutOfOrder | UaTool.RingStartIsChronological |
