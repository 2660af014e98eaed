/**
 * The driver's optional trace table (compiled in with TRACE): a fixed array
 * of USBNET_TRACE entries written round-robin. `next` is the slot the next
 * event goes to (the C pointers first, next, last are the indices 0, next
 * and entry.Length). A table of length 0 stands for a driver built without
 * TRACE, where tracing does nothing.
 */
module Trace {
  import opened StingTypes

  datatype TraceKind = TraceRead | TraceWrite | TraceMacGet

  /** USBNET_TRACE; `data` has USBNET_TRACE_LEN bytes. */
  datatype TraceEntry = TraceEntry(time: uint32, rc: int, kind: TraceKind, length: int, data: seq<bv8>)

  /**
   * What trace() leaves in a slot: the new header fields, and the first
   * min(USBNET_TRACE_LEN, length) bytes of the event copied over the slot's
   * old data (nothing is copied for a length <= 0).
   */
  function Recorded(old_: TraceEntry, now: uint32, rc: int, kind: TraceKind, length: int, data: seq<bv8>): (r: TraceEntry)
    requires length > 0 ==> |data| >= Min(|old_.data|, length)
    ensures |r.data| == |old_.data|
    ensures r.time == now && r.rc == rc && r.kind == kind && r.length == length
    ensures length > 0 ==> r.data[..Min(|old_.data|, length)] == data[..Min(|old_.data|, length)]
    ensures forall i :: (if length > 0 then Min(|old_.data|, length) else 0) <= i < |r.data| ==> r.data[i] == old_.data[i]
  {
    var m := if length > 0 then Min(|old_.data|, length) else 0;
    TraceEntry(now, rc, kind, length, data[..m] + old_.data[m..])
  }

  function Times(s: seq<TraceEntry>): (r: seq<uint32>)
    ensures |r| == |s| && forall i :: 0 <= i < |s| ==> r[i] == s[i].time
  {
    if s == [] then [] else [s[0].time] + Times(s[1..])
  }

  /** The slots in the order they were written, oldest first, when the ring is read from `start`. */
  function Rotate<T>(s: seq<T>, start: nat): (r: seq<T>)
    requires start <= |s|
    ensures |r| == |s|
    ensures forall i :: 0 <= i < |s| ==> r[i] == if start + i < |s| then s[start + i] else s[start + i - |s|]
  {
    s[start..] + s[..start]
  }

  /** The slot after k in a ring of n slots: next++, wrapping from last back to first. */
  function Advance(k: nat, n: nat): nat {
    if k + 1 >= n then 0 else k + 1
  }

  predicate NonDecreasing(s: seq<uint32>) {
    forall i, j :: 0 <= i <= j < |s| ==> s[i] <= s[j]
  }

  /** The ring read from `next` is in time order (unused slots have time 0). */
  predicate Chronological(times: seq<uint32>, next: nat) {
    next <= |times| && NonDecreasing(Rotate(times, next))
  }

  /** Writing slot k and advancing past it moves that slot from the front of the rotation to its back. */
  lemma RotateAfterWrite<T>(s: seq<T>, k: nat, v: T)
    requires k < |s|
    ensures Rotate(s[k := v], Advance(k, |s|)) == Rotate(s, k)[1..] + [v]
  {
    var a := Rotate(s[k := v], Advance(k, |s|));
    var b := Rotate(s, k)[1..] + [v];
    assert |a| == |b|;
    forall i | 0 <= i < |a|
      ensures a[i] == b[i]
    {
    }
  }

  /** Dropping the first of an ordered run and appending a later time keeps it ordered. */
  lemma ShiftInLater(r: seq<uint32>, now: uint32)
    requires |r| > 0 && NonDecreasing(r)
    requires forall m :: 0 <= m < |r| ==> r[m] <= now
    ensures NonDecreasing(r[1..] + [now])
  {
    var r' := r[1..] + [now];
    forall i, j | 0 <= i <= j < |r'|
      ensures r'[i] <= r'[j]
    {
      if j < |r'| - 1 {
        assert r'[i] == r[i + 1] && r'[j] == r[j + 1];
      } else {
        assert r'[j] == now;
        if i < |r'| - 1 {
          assert r'[i] == r[i + 1];
        }
      }
    }
  }

  /** Overwriting the oldest slot with a time no earlier than any recorded keeps the ring in time order. */
  lemma WriteKeepsChronological(times: seq<uint32>, k: nat, now: uint32)
    requires k < |times| && Chronological(times, k)
    requires forall i :: 0 <= i < |times| ==> times[i] <= now
    ensures Chronological(times[k := now], Advance(k, |times|))
  {
    RotateAfterWrite(times, k, now);
    var r := Rotate(times, k);
    forall m | 0 <= m < |r|
      ensures r[m] <= now
    {
      var idx := if k + m < |times| then k + m else k + m - |times|;
      assert r[m] == times[idx];
    }
    ShiftInLater(r, now);
  }

  class TraceTable {
    const entry: array<TraceEntry>
    /** USBNET_TRACE_LEN: the bytes of event data kept per entry. */
    const dataLen: nat
    var next: nat

    ghost predicate Valid()
      reads this, entry
    {
      && (entry.Length == 0 ==> next == 0)
      && (entry.Length > 0 ==> next < entry.Length)
      && forall i :: 0 <= i < entry.Length ==> |entry[i].data| == dataLen
    }

    ghost predicate InOrder()
      reads this, entry
    {
      Chronological(Times(entry[..]), next)
    }

    /** init_ext_port: an all-zero table with next = first. */
    constructor (entries: nat, dataLen: nat)
      ensures Valid() && InOrder() && fresh(entry)
      ensures entry.Length == entries && this.dataLen == dataLen && next == 0
      ensures forall i :: 0 <= i < entries ==> entry[i].time == 0
    {
      this.dataLen := dataLen;
      entry := new TraceEntry[entries](_ => TraceEntry(0, 0, TraceRead, 0, seq(dataLen, _ => 0)));
      next := 0;
      new;
      ZeroTimesInOrder(Times(entry[..]), 0);
    }

    /** trace_init: every time becomes 0 (an unused slot); next does not move. */
    method Init()
      requires Valid()
      modifies entry
      ensures Valid() && InOrder() && next == old(next)
      ensures forall i :: 0 <= i < entry.Length ==> entry[i] == old(entry[i]).(time := 0)
    {
      var i := 0;
      while i < entry.Length
        invariant 0 <= i <= entry.Length
        invariant forall j :: 0 <= j < i ==> entry[j] == old(entry[j]).(time := 0)
        invariant forall j :: i <= j < entry.Length ==> entry[j] == old(entry[j])
      {
        entry[i] := entry[i].(time := 0);
        i := i + 1;
      }
      ZeroTimesInOrder(Times(entry[..]), next);
    }

    /** trace(x, type, rc, length, data) at time `now` (hz_200). */
    method Trace(kind: TraceKind, rc: int, length: int, data: seq<bv8>, now: uint32)
      requires Valid()
      requires length > 0 ==> |data| >= Min(dataLen, length)
      modifies this`next, entry
      ensures Valid()
      ensures entry.Length == 0 ==> next == 0 && entry[..] == old(entry[..])
      ensures entry.Length > 0 ==>
        && next == Advance(old(next), entry.Length)
        && entry[..] == old(entry[..])[old(next) := Recorded(old(entry[next]), now, rc, kind, length, data)]
      ensures old(InOrder()) && (forall i :: 0 <= i < entry.Length ==> old(entry[i].time) <= now) ==> InOrder()
    {
      if entry.Length > 0 {
        ghost var before := entry[..];
        var t := next;
        entry[t] := Recorded(entry[t], now, rc, kind, length, data);
        next := Advance(t, entry.Length);
        WriteRecordsTime(before, entry[..], t, now);
      }
    }
  }

  /** The time bookkeeping of one trace() call. */
  lemma WriteRecordsTime(before: seq<TraceEntry>, after: seq<TraceEntry>, t: nat, now: uint32)
    requires t < |before| == |after| && after[t].time == now
    requires forall i :: 0 <= i < |before| && i != t ==> after[i] == before[i]
    ensures Times(after) == Times(before)[t := now]
    ensures Chronological(Times(before), t) && (forall i :: 0 <= i < |before| ==> before[i].time <= now)
      ==> Chronological(Times(after), Advance(t, |after|))
  {
    var ta, tb := Times(after), Times(before);
    assert ta == tb[t := now];
    if Chronological(tb, t) && (forall i :: 0 <= i < |before| ==> before[i].time <= now) {
      WriteKeepsChronological(tb, t, now);
    }
  }

  lemma ZeroTimesInOrder(times: seq<uint32>, next: nat)
    requires next <= |times|
    requires forall i :: 0 <= i < |times| ==> times[i] == 0
    ensures Chronological(times, next)
  {
  }
}
