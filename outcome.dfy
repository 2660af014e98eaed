/**
 * What the port loops (send_dgrams and the drain in process_arp) do with
 * each datagram they dequeue, and the bookkeeping over a whole run: which
 * datagrams are requeued, which are handed to IP_discard, and what the
 * run adds to stat_dropped and stat_sd_data.
 */
module Outcome {
  import opened StingTypes
  import opened DgramQueue

  /**
   * The switch on process_output's result for one datagram: deferred
   * (result 0; `arpSent` says whether the ARP request it sent was written),
   * dropped (result -1) or sent (the IP length it returned).
   */
  datatype Fate = Deferred(arpSent: bool) | Dropped | Sent(length: nat)

  /** The bytes one datagram's handling adds to stat_sd_data: the ARP request, or the datagram. */
  function FateBytes(f: Fate): nat {
    match f
    case Deferred(arpSent) => if arpSent then ARP_PACKET_LEN else 0
    case Dropped => 0
    case Sent(length) => length
  }

  /** process_output's result for a datagram of this fate: 0, -1 or the length sent. */
  function ResultOf(f: Fate): int {
    match f
    case Deferred(_) => 0
    case Dropped => -1
    case Sent(length) => length
  }

  /** The datagrams of `s` whose fate is Deferred, in order: the ones a loop requeues. */
  function Kept(s: seq<Dgram>, fates: seq<Fate>): seq<Dgram>
    requires |s| == |fates|
    decreases |s|
  {
    if s == [] then []
    else Kept(s[..|s| - 1], fates[..|s| - 1]) + (if fates[|s| - 1].Deferred? then [s[|s| - 1]] else [])
  }

  /** The datagrams of `s` that are dropped or sent, in order: the ones handed to IP_discard. */
  function Gone(s: seq<Dgram>, fates: seq<Fate>): seq<Dgram>
    requires |s| == |fates|
    decreases |s|
  {
    if s == [] then []
    else Gone(s[..|s| - 1], fates[..|s| - 1]) + (if fates[|s| - 1].Deferred? then [] else [s[|s| - 1]])
  }

  /** How many of the fates are Dropped: what the run adds to stat_dropped. */
  function Drops(fates: seq<Fate>): nat
    decreases |fates|
  {
    if fates == [] then 0
    else Drops(fates[..|fates| - 1]) + (if fates[|fates| - 1].Dropped? then 1 else 0)
  }

  /** What the run adds to stat_sd_data. */
  function Bytes(fates: seq<Fate>): nat
    decreases |fates|
  {
    if fates == [] then 0
    else Bytes(fates[..|fates| - 1]) + FateBytes(fates[|fates| - 1])
  }

  /** One more datagram handled: each total grows by that datagram's share. */
  lemma Step(s: seq<Dgram>, fates: seq<Fate>, i: nat, f: Fate)
    requires i < |s| && |fates| == i
    ensures Kept(s[..i + 1], fates + [f]) == Kept(s[..i], fates) + (if f.Deferred? then [s[i]] else [])
    ensures Gone(s[..i + 1], fates + [f]) == Gone(s[..i], fates) + (if f.Deferred? then [] else [s[i]])
    ensures Drops(fates + [f]) == Drops(fates) + (if f.Dropped? then 1 else 0)
    ensures Bytes(fates + [f]) == Bytes(fates) + FateBytes(f)
  {
    var s', f' := s[..i + 1], fates + [f];
    assert |s'| == |f'| == i + 1 && s'[i] == s[i] && f'[i] == f;
    assert s'[..i] == s[..i] && f'[..i] == fates;
  }

  /** Step, for totals that are appended to a queue already holding `q0` and a discard list already holding `d0`. */
  lemma StepOnto(s: seq<Dgram>, fates: seq<Fate>, i: nat, f: Fate, q0: seq<Dgram>, d0: seq<Dgram>)
    requires i < |s| && |fates| == i
    ensures q0 + Kept(s[..i + 1], fates + [f]) == q0 + Kept(s[..i], fates) + (if f.Deferred? then [s[i]] else [])
    ensures d0 + Gone(s[..i + 1], fates + [f]) == d0 + Gone(s[..i], fates) + (if f.Deferred? then [] else [s[i]])
    ensures Drops(fates + [f]) == Drops(fates) + (if f.Dropped? then 1 else 0)
    ensures Bytes(fates + [f]) == Bytes(fates) + FateBytes(f)
    ensures |Kept(s[..i + 1], fates + [f])| == |Kept(s[..i], fates)| + (if f.Deferred? then 1 else 0)
  {
    Step(s, fates, i, f);
    var x := if f.Deferred? then [s[i]] else [];
    var y := if f.Deferred? then [] else [s[i]];
    assert q0 + (Kept(s[..i], fates) + x) == q0 + Kept(s[..i], fates) + x;
    assert d0 + (Gone(s[..i], fates) + y) == d0 + Gone(s[..i], fates) + y;
  }

  /** The requeued and the discarded datagrams split `s` between them, each in the order of `s`. */
  lemma {:induction false} KeptGoneInterleave(s: seq<Dgram>, fates: seq<Fate>)
    requires |s| == |fates|
    ensures Interleaves(s, Kept(s, fates), Gone(s, fates))
    decreases |s|
  {
    if s != [] {
      var n := |s| - 1;
      var s', f' := s[..n], fates[..n];
      KeptGoneInterleave(s', f');
      assert s' + [s[n]] == s;
      if fates[n].Deferred? {
        assert Gone(s', f') + [] == Gone(s', f');
        InterleaveLeft(s', Kept(s', f'), Gone(s', f'), s[n]);
      } else {
        assert Kept(s', f') + [] == Kept(s', f');
        InterleaveRight(s', Kept(s', f'), Gone(s', f'), s[n]);
      }
    }
  }

  /**
   * Nothing is lost or duplicated: every datagram of `s` is requeued or
   * discarded, not both.
   */
  lemma KeptGoneSplit(s: seq<Dgram>, fates: seq<Fate>)
    requires |s| == |fates|
    ensures multiset(s) == multiset(Kept(s, fates)) + multiset(Gone(s, fates))
    ensures |Kept(s, fates)| + |Gone(s, fates)| == |s|
  {
    KeptGoneInterleave(s, fates);
    InterleavesSplits(s, Kept(s, fates), Gone(s, fates));
  }

  /** A run in which nothing is deferred requeues nothing and discards everything, in order. */
  lemma {:induction false} NoneDeferred(s: seq<Dgram>, fates: seq<Fate>)
    requires |s| == |fates| && forall j :: 0 <= j < |fates| ==> !fates[j].Deferred?
    ensures Kept(s, fates) == [] && Gone(s, fates) == s
    decreases |s|
  {
    if s != [] {
      var n := |s| - 1;
      NoneDeferred(s[..n], fates[..n]);
      assert s[..n] + [s[n]] == s;
    }
  }
}
