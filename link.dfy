/**
 * The USB transport (asix_send/asix_recv or picowifi_send/picowifi_recv):
 * frames handed to it are logged in order, the status it reports for the
 * n-th write is an oracle, and the frames it will deliver are a finite
 * queue of arrivals.
 */
module UsbLink {
  import opened StingTypes

  /** One result of the transport's receive call. */
  datatype Arrival = Frame(data: seq<bv8>) | Fault(code: int)

  /**
   * A frame is 1..ETH_MAX_LEN bytes long (the driver passes ETH_MAX_LEN
   * as the receive limit) and a fault code is negative.
   */
  predicate ArrivalOk(a: Arrival) {
    match a
    case Frame(data) => 0 < |data| <= ETH_MAX_LEN
    case Fault(code) => code < 0
  }

  type GoodArrival = a: Arrival | ArrivalOk(a) witness Fault(-1)

  class Link {
    var written: seq<seq<bv8>>
    const status: nat -> int
    var inbox: seq<GoodArrival>

    constructor (status: nat -> int, inbox: seq<GoodArrival>)
      ensures written == [] && this.status == status && this.inbox == inbox
    {
      this.status := status;
      this.inbox := inbox;
      written := [];
    }

    /** The status the transport reports for the next write. */
    function NextStatus(): int
      reads this`written
    {
      status(|written|)
    }

    /** Hand one frame to the transport. */
    method Send(frame: seq<bv8>) returns (rc: int)
      modifies this`written
      ensures rc == old(NextStatus())
      ensures written == old(written) + [frame]
    {
      rc := status(|written|);
      written := written + [frame];
    }

    /**
     * Take the next frame: its length and bytes, a negative code, or 0 when
     * nothing is pending.
     */
    method Receive() returns (rc: int, data: seq<bv8>)
      modifies this`inbox
      ensures old(inbox) == [] ==> rc == 0 && data == [] && inbox == []
      ensures old(inbox) != [] ==> inbox == old(inbox)[1..]
      ensures old(inbox) != [] && old(inbox)[0].Frame? ==>
        data == old(inbox)[0].data && rc == |data| && 0 < rc <= ETH_MAX_LEN
      ensures old(inbox) != [] && old(inbox)[0].Fault? ==> rc == old(inbox)[0].code < 0 && data == []
    {
      if inbox == [] {
        rc, data := 0, [];
      } else {
        match inbox[0] {
          case Frame(d) => rc, data := |d|, d;
          case Fault(c) => rc, data := c, [];
        }
        inbox := inbox[1..];
      }
    }
  }
}
