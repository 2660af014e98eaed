/**
 * The computational parts of uatool, the report and reset tool for the
 * driver: the `-c` option scan and the exit code of clear mode, the
 * search for the oldest trace entry and the walk that displays the trace
 * table, the awaiting-resolution count of the statistics report, and the
 * formatting of hardware addresses.
 */
module UaTool {
  import opened StingTypes
  import opened Trace
  import opened Stats

  /*
   * The `-c` option
   */

  /** One option returned by getopt: `-c` with its optional argument, or any other letter. */
  datatype Opt = ClearOpt(arg: Option<seq<bv8>>) | OtherOpt

  /** `*p | 0x20`: the lower-case form of an ASCII letter (tolower, for letters only). */
  function Folded(c: bv8): bv8 {
    c | 0x20
  }

  /** A lower-case ASCII letter. */
  predicate IsLower(c: bv8) {
    0x61 <= c <= 0x7a
  }

  /** Folding matches a lower-case letter exactly for that letter and its upper-case form. */
  lemma FoldedMatches(c: bv8, letter: bv8)
    requires IsLower(letter)
    ensures Folded(c) == letter <==> c == letter || c == letter - 0x20
  {
  }

  /** How many characters of `arg` fold to `letter`. */
  function Occurrences(arg: seq<bv8>, letter: bv8): (n: nat)
    ensures n <= |arg|
    decreases |arg|
  {
    if arg == [] then 0
    else Occurrences(arg[..|arg| - 1], letter) + (if Folded(arg[|arg| - 1]) == letter then 1 else 0)
  }

  /** How many leading options are `-c`: getopt's loop ends in usage() at the first other one. */
  function ClearRun(opts: seq<Opt>): (m: nat)
    ensures m <= |opts|
    ensures forall i :: 0 <= i < m ==> opts[i].ClearOpt?
    ensures m < |opts| ==> opts[m].OtherOpt?
  {
    if opts == [] || opts[0].OtherOpt? then 0 else 1 + ClearRun(opts[1..])
  }

  /** The argument letters of the `-c` options in `opts` that fold to `letter`. */
  function ArgOccurrences(opts: seq<Opt>, letter: bv8): nat
    decreases |opts|
  {
    if opts == [] then 0
    else
      var o := opts[|opts| - 1];
      ArgOccurrences(opts[..|opts| - 1], letter)
        + (if o.ClearOpt? && o.arg.Some? then Occurrences(o.arg.value, letter) else 0)
  }

  /** The global counters clear_stats, clear_arp and clear_trace. */
  class ClearRequest {
    var stats: nat
    var arp: nat
    var trace: nat

    constructor ()
      ensures stats == 0 && arp == 0 && trace == 0
    {
      stats, arp, trace := 0, 0, 0;
    }

    /** The loop over a `-c` argument: every 'a' or 'A' asks for the ARP cache, every 't' or 'T' for the trace. */
    method CountLetters(arg: seq<bv8>)
      modifies this`arp, this`trace
      ensures arp == old(arp) + Occurrences(arg, 0x61)
      ensures trace == old(trace) + Occurrences(arg, 0x74)
    {
      var i := 0;
      while i < |arg|
        invariant 0 <= i <= |arg|
        invariant arp == old(arp) + Occurrences(arg[..i], 0x61)
        invariant trace == old(trace) + Occurrences(arg[..i], 0x74)
      {
        assert arg[..i + 1][..i] == arg[..i];
        var c := Folded(arg[i]);
        if c == 0x61 {
          arp := arp + 1;
        } else if c == 0x74 {
          trace := trace + 1;
        }
        i := i + 1;
      }
      assert arg[..i] == arg;
    }

    /**
     * main's getopt loop: every `-c` counts once in clear_stats, whether
     * or not it has an argument, and its argument letters are counted;
     * any other option ends the run in usage() (`ok` false).
     */
    method ScanOptions(opts: seq<Opt>) returns (ok: bool)
      modifies this
      ensures var m := ClearRun(opts);
        && (ok <==> m == |opts|)
        && stats == old(stats) + m
        && arp == old(arp) + ArgOccurrences(opts[..m], 0x61)
        && trace == old(trace) + ArgOccurrences(opts[..m], 0x74)
    {
      var i := 0;
      ghost var m := ClearRun(opts);
      while i < |opts| && opts[i].ClearOpt?
        invariant 0 <= i <= m
        invariant stats == old(stats) + i
        invariant arp == old(arp) + ArgOccurrences(opts[..i], 0x61)
        invariant trace == old(trace) + ArgOccurrences(opts[..i], 0x74)
      {
        assert opts[..i + 1][..i] == opts[..i];
        if opts[i].arg.Some? {
          CountLetters(opts[i].arg.value);
        }
        stats := stats + 1;
        i := i + 1;
      }
      ok := i == |opts|;
    }
  }

  /**
   * The exit code of clear mode: the worse of the statistics clear's
   * result `rc` and `rc2`, where rc2 is the result of the last of the ARP
   * and trace clears requested (the trace clear's result replaces the ARP
   * clear's), or 0 when neither was requested.
   */
  function ClearExitCode(rc: int, clearArp: nat, clearTrace: nat, rcArp: int, rcTrace: int): (r: int)
    ensures r <= rc
    ensures rc == 0 && (clearArp > 0 ==> rcArp == 0) && (clearTrace > 0 ==> rcTrace == 0) ==> r == 0
    ensures rc < 0 ==> r < 0
    ensures clearTrace > 0 && rcTrace < 0 ==> r < 0
    ensures clearTrace == 0 && clearArp > 0 && rcArp < 0 ==> r < 0
    ensures clearTrace > 0 ==> r == Min(rc, rcTrace)
  {
    var rc2 := if clearTrace > 0 then rcTrace else if clearArp > 0 then rcArp else 0;
    Min(rc, rc2)
  }

  /*
   * The statistics report
   */

  /**
   * The awaiting-resolution line of display_statistics: the count, when it
   * is not zero.
   */
  function AwaitingLine(w: WaitCounts): (r: Option<int>)
    ensures r.Some? <==> w.waitQueued + w.waitRequeued != w.waitDequeued
    ensures r.Some? ==> r.value + w.waitDequeued == w.waitQueued + w.waitRequeued
  {
    var n := Awaiting(w);
    if n != 0 then Some(n) else None
  }

  /*
   * Hardware addresses
   */

  /** A lower-case hexadecimal digit. */
  function HexDigit(d: nat): (c: char)
    requires d < 16
    ensures '0' <= c <= '9' || 'a' <= c <= 'f'
  {
    if d < 10 then ('0' as int + d) as char else ('a' as int + d - 10) as char
  }

  /** The value of a hexadecimal digit of either case, if it is one. */
  function DigitValue(c: char): Option<nat> {
    if '0' <= c <= '9' then Some(c as int - '0' as int)
    else if 'a' <= c <= 'f' then Some(c as int - 'a' as int + 10)
    else if 'A' <= c <= 'F' then Some(c as int - 'A' as int + 10)
    else None
  }

  /** The character of `%02x` at position `pos` (0 or 1) for byte `b`: high nibble first. */
  function NibbleDigit(b: bv8, pos: nat): (c: char)
    requires pos < 2
    ensures '0' <= c <= '9' || 'a' <= c <= 'f'
  {
    if pos == 0 then HexDigit(b as int / 16) else HexDigit(b as int % 16)
  }

  /** format_macaddr: six `%02x` groups in byte order, separated by ':'. */
  function FormatMacaddr(m: Mac): (s: seq<char>)
    ensures |s| == 17
    ensures forall i :: 0 <= i < 17 && i % 3 == 2 ==> s[i] == ':'
    ensures forall i :: 0 <= i < 17 && i % 3 != 2 ==> '0' <= s[i] <= '9' || 'a' <= s[i] <= 'f'
  {
    seq(17, i requires 0 <= i < 17 => if i % 3 == 2 then ':' else NibbleDigit(m[i / 3], i % 3))
  }

  /** The byte written as the two digits s[i], s[i + 1], if they are digits. */
  function ReadHex2(s: seq<char>, i: nat): Option<bv8>
    requires i + 2 <= |s|
  {
    var hi, lo := DigitValue(s[i]), DigitValue(s[i + 1]);
    if hi.Some? && lo.Some? && hi.value < 16 && lo.value < 16 then Some((hi.value * 16 + lo.value) as bv8) else None
  }

  /** Six groups of two digits separated by ':'. */
  predicate IsMacText(s: seq<char>) {
    && |s| == 17
    && (forall g :: 0 <= g < 5 ==> s[3 * g + 2] == ':')
    && (forall g :: 0 <= g < 6 ==> ReadHex2(s, 3 * g).Some?)
  }

  /** Read an address back from its text form, if it has that form. */
  function ParseMacaddr(s: seq<char>): Option<Mac> {
    if IsMacText(s) then Some(seq(6, g requires 0 <= g < 6 => ReadHex2(s, 3 * g).value)) else None
  }

  /** A digit reads back as itself. */
  lemma DigitRoundTrip(d: nat)
    requires d < 16
    ensures DigitValue(HexDigit(d)) == Some(d)
  {
  }

  /** A byte's two digits read back as that byte. */
  lemma ByteRoundTrip(b: bv8, s: seq<char>, i: nat)
    requires i + 2 <= |s| && s[i] == NibbleDigit(b, 0) && s[i + 1] == NibbleDigit(b, 1)
    ensures ReadHex2(s, i) == Some(b)
  {
    DigitRoundTrip(b as int / 16);
    DigitRoundTrip(b as int % 16);
    NibblesRebuild(b);
  }

  /** The two nibbles put back together give the byte. */
  lemma NibblesRebuild(b: bv8)
    ensures (b as int / 16 * 16 + b as int % 16) as bv8 == b
  {
    var v := b as int;
    assert v / 16 * 16 + v % 16 == v;
  }

  /** Position `r` of group `g`. */
  lemma DivThree(g: nat, r: nat)
    requires r < 3
    ensures (3 * g + r) / 3 == g && (3 * g + r) % 3 == r
  {
  }

  /**
   * The text form names the address exactly: it has the shape of an
   * address and reading it back gives the address.
   */
  lemma FormatMacaddrRoundTrip(m: Mac)
    ensures IsMacText(FormatMacaddr(m))
    ensures ParseMacaddr(FormatMacaddr(m)) == Some(m)
  {
    var s := FormatMacaddr(m);
    forall g | 0 <= g < 6
      ensures ReadHex2(s, 3 * g) == Some(m[g])
    {
      DivThree(g, 0);
      DivThree(g, 1);
      ByteRoundTrip(m[g], s, 3 * g);
    }
    forall g | 0 <= g < 5
      ensures s[3 * g + 2] == ':'
    {
      DivThree(g, 2);
    }
    assert IsMacText(s);
    var p := ParseMacaddr(s).value;
    assert forall g :: 0 <= g < 6 ==> p[g] == m[g];
    assert p == m;
  }

  /*
   * The trace table
   */

  /** The largest unsigned long: find_first_entry's starting "lowest time". */
  const ULONG_MAX: nat := 0xFFFF_FFFF

  /**
   * `n` is what find_first_entry returns for the times `t`: the lowest
   * index holding the smallest time, or 0 for an empty table.
   */
  predicate IsFirstEntry(t: seq<uint32>, n: int) {
    if |t| == 0 then n == 0
    else 0 <= n < |t| && (forall i :: 0 <= i < |t| ==> t[n] <= t[i]) && (forall i :: 0 <= i < n ==> t[n] < t[i])
  }

  /** find_first_entry: a running minimum over the entries' times, replaced only by a strictly smaller time. */
  method FindFirstEntry(table: seq<TraceEntry>) returns (n: int)
    ensures IsFirstEntry(Times(table), n)
  {
    var lowest: nat := ULONG_MAX;
    n := 0;
    var i := 0;
    while i < |table|
      invariant 0 <= i <= |table|
      invariant 0 <= n && (n < i || n == 0)
      invariant i == 0 ==> lowest == ULONG_MAX
      invariant i > 0 ==> lowest == table[n].time
      invariant forall j :: 0 <= j < i ==> lowest <= table[j].time
      invariant forall j :: 0 <= j < n ==> lowest < table[j].time
    {
      if table[i].time < lowest {
        lowest := table[i].time;
        n := i;
      }
      i := i + 1;
    }
  }

  /** The indices display_trace visits: first..entries-1, then 0..first-1. */
  function Walk(entries: nat, first: nat): (r: seq<nat>)
    requires first <= entries
    ensures |r| == entries
    ensures forall j :: 0 <= j < entries ==> r[j] < entries
    ensures forall j :: 0 <= j < entries ==> r[j] == if first + j < entries then first + j else first + j - entries
  {
    seq(entries - first, j => first + j) + seq(first, j => j)
  }

  /** The walk visits every index of the table exactly once. */
  lemma WalkVisitsEachOnce(entries: nat, first: nat)
    requires first <= entries
    ensures var w := Walk(entries, first);
      && (forall i :: 0 <= i < entries ==> i in w)
      && Distinct(w)
  {
    var w := Walk(entries, first);
    forall i | 0 <= i < entries
      ensures i in w
    {
      var j := if i >= first then i - first else i + entries - first;
      assert w[j] == i;
    }
  }

  /** The indices of `order` whose entries are in use (time not 0), in order: what display_trace prints. */
  function Visible(t: seq<uint32>, order: seq<nat>): (r: seq<nat>)
    requires forall j :: 0 <= j < |order| ==> order[j] < |t|
    ensures |r| <= |order| && forall j :: 0 <= j < |r| ==> r[j] < |t|
    decreases |order|
  {
    if order == [] then []
    else
      var x := order[|order| - 1];
      Visible(t, order[..|order| - 1]) + (if t[x] != 0 then [x] else [])
  }

  /** Visible keeps exactly the indices of `order` whose entries are in use. */
  lemma {:induction false} VisibleMembers(t: seq<uint32>, order: seq<nat>)
    requires forall j :: 0 <= j < |order| ==> order[j] < |t|
    ensures forall y :: y in Visible(t, order) <==> y in order && y < |t| && t[y] != 0
    decreases |order|
  {
    if order != [] {
      var front := order[..|order| - 1];
      VisibleMembers(t, front);
      assert order == front + [order[|order| - 1]];
    }
  }

  /** No index appears twice. */
  predicate Distinct(s: seq<nat>) {
    forall i, j :: 0 <= i < j < |s| ==> s[i] != s[j]
  }

  /** Visible repeats no index that `order` does not repeat. */
  lemma {:induction false} VisibleDistinct(t: seq<uint32>, order: seq<nat>)
    requires forall j :: 0 <= j < |order| ==> order[j] < |t|
    requires Distinct(order)
    ensures Distinct(Visible(t, order))
    decreases |order|
  {
    if order != [] {
      var n := |order| - 1;
      var front := order[..n];
      VisibleDistinct(t, front);
      VisibleMembers(t, front);
    }
  }

  /** The entries `order` names have non-decreasing times. */
  predicate TimeOrdered(t: seq<uint32>, order: seq<nat>)
    requires forall j :: 0 <= j < |order| ==> order[j] < |t|
  {
    forall i, j :: 0 <= i <= j < |order| ==> t[order[i]] <= t[order[j]]
  }

  /** One more index visited. */
  lemma VisibleStep(t: seq<uint32>, order: seq<nat>, m: nat)
    requires m < |order| && forall j :: 0 <= j < |order| ==> order[j] < |t|
    ensures Visible(t, order[..m + 1]) == Visible(t, order[..m]) + (if t[order[m]] != 0 then [order[m]] else [])
  {
    assert order[..m + 1][..m] == order[..m];
  }

  /** Skipping unused entries keeps a walk in time order. */
  lemma {:induction false} VisibleKeepsOrder(t: seq<uint32>, order: seq<nat>)
    requires forall j :: 0 <= j < |order| ==> order[j] < |t|
    requires TimeOrdered(t, order)
    ensures TimeOrdered(t, Visible(t, order))
    decreases |order|
  {
    if order != [] {
      var n := |order| - 1;
      var x, front := order[n], order[..n];
      assert TimeOrdered(t, front);
      VisibleKeepsOrder(t, front);
      if t[x] != 0 {
        var v := Visible(t, front);
        BeforeLast(t, order, v);
        OrderedSnoc(t, v, x);
      }
    }
  }

  /** Every entry Visible keeps from the front of `order` is no later than the last entry of `order`. */
  lemma BeforeLast(t: seq<uint32>, order: seq<nat>, v: seq<nat>)
    requires order != [] && forall j :: 0 <= j < |order| ==> order[j] < |t|
    requires TimeOrdered(t, order) && v == Visible(t, order[..|order| - 1])
    ensures forall i :: 0 <= i < |v| ==> t[v[i]] <= t[order[|order| - 1]]
  {
    var n := |order| - 1;
    VisibleMembers(t, order[..n]);
    forall i | 0 <= i < |v|
      ensures t[v[i]] <= t[order[n]]
    {
      assert v[i] in order[..n];
      var k :| 0 <= k < n && order[..n][k] == v[i];
      assert order[k] == v[i];
    }
  }

  /** Appending an entry no earlier than all of an ordered list keeps it ordered. */
  lemma OrderedSnoc(t: seq<uint32>, v: seq<nat>, x: nat)
    requires x < |t| && forall j :: 0 <= j < |v| ==> v[j] < |t|
    requires TimeOrdered(t, v) && forall i :: 0 <= i < |v| ==> t[v[i]] <= t[x]
    ensures TimeOrdered(t, v + [x])
  {
    var r := v + [x];
    forall i, j | 0 <= i <= j < |r|
      ensures t[r[i]] <= t[r[j]]
    {
      if j < |v| {
        assert r[i] == v[i] && r[j] == v[j];
      } else if i < |v| {
        assert r[i] == v[i] && r[j] == x;
      }
    }
  }

  /** Walking a ring from a slot where it is in time order visits its entries in time order. */
  lemma WalkInOrder(t: seq<uint32>, s: nat)
    requires s < |t| && Chronological(t, s)
    ensures TimeOrdered(t, Walk(|t|, s))
  {
    var w, r := Walk(|t|, s), Rotate(t, s);
    assert forall j :: 0 <= j < |t| ==> t[w[j]] == r[j];
  }

  /**
   * Displayed from a slot where the ring is in time order, the entries in
   * use come out in time order.
   */
  lemma ShownInOrder(t: seq<uint32>, s: nat)
    requires s < |t| && Chronological(t, s)
    ensures TimeOrdered(t, Visible(t, Walk(|t|, s)))
  {
    WalkInOrder(t, s);
    VisibleKeepsOrder(t, Walk(|t|, s));
  }

  /** Whatever slot the walk starts from, every entry in use is shown, once, and no other. */
  lemma ShownOnce(t: seq<uint32>, s: nat)
    requires s <= |t|
    ensures var v := Visible(t, Walk(|t|, s));
      && (forall i :: 0 <= i < |t| ==> (i in v <==> t[i] != 0))
      && (forall y :: y in v ==> y < |t|)
      && Distinct(v)
  {
    WalkVisitsEachOnce(|t|, s);
    VisibleMembers(t, Walk(|t|, s));
    VisibleDistinct(t, Walk(|t|, s));
  }

  /**
   * display_trace on a fetched copy of the trace table: start at the
   * entry find_first_entry picks, walk to the end and wrap around, and
   * show every entry in use. `shown` lists the indices shown, in order.
   */
  method DisplayTrace(table: seq<TraceEntry>) returns (first: int, shown: seq<nat>)
    ensures IsFirstEntry(Times(table), first)
    ensures shown == Visible(Times(table), Walk(|table|, first))
  {
    first := FindFirstEntry(table);
    shown := ShowFrom(table, first);
  }

  /** The two loops of display_trace, from `first` to the end and then from 0 to `first`. */
  method ShowFrom(table: seq<TraceEntry>, first: int) returns (shown: seq<nat>)
    requires 0 <= first <= |table|
    ensures shown == Visible(Times(table), Walk(|table|, first))
  {
    ghost var t, w := Times(table), Walk(|table|, first);
    shown := ShowRange(table, t, w, first, |table|, 0, |table| - first, []);
    shown := ShowRange(table, t, w, 0, first, |table| - first, |table|, shown);
    VisibleWhole(t, w, |table|);
  }

  /** The whole order, as a prefix of itself. */
  lemma VisibleWhole(t: seq<uint32>, order: seq<nat>, n: nat)
    requires n == |order| && forall j :: 0 <= j < |order| ==> order[j] < |t|
    ensures Visible(t, order[..n]) == Visible(t, order)
  {
    assert order[..n] == order;
  }

  /**
   * One loop of display_trace: show the entries in use among slots
   * from..to-1 (times `t`), which are the walk's positions p0..p1-1.
   */
  method ShowRange(table: seq<TraceEntry>, ghost t: seq<uint32>, ghost w: seq<nat>, from: int, to: int,
                   ghost p0: nat, ghost p1: nat, shown0: seq<nat>)
    returns (shown: seq<nat>)
    requires |t| == |table| && forall i :: 0 <= i < |table| ==> t[i] == table[i].time
    requires 0 <= from <= to <= |table| && p1 == p0 + (to - from) <= |w|
    requires forall j :: 0 <= j < |w| ==> w[j] < |t|
    requires forall j :: p0 <= j < p1 ==> w[j] == from + (j - p0)
    requires shown0 == Visible(t, w[..p0])
    ensures shown == Visible(t, w[..p1])
  {
    shown := shown0;
    var i := from;
    while i < to
      invariant from <= i <= to
      invariant shown == Visible(t, w[..p0 + (i - from)])
    {
      VisibleStep(t, w, p0 + (i - from));
      if table[i].time != 0 {
        shown := shown + [i];
      }
      i := i + 1;
    }
  }

  /** Both neighbours in the walk from `k`: the slot before `i` comes right before it unless `i` is `k`. */
  lemma RingNeighbours(t: seq<uint32>, k: nat, i: nat)
    requires k < |t| && Chronological(t, k) && i < |t| && i != k
    ensures t[Prev(i, |t|)] <= t[i]
  {
    var r := Rotate(t, k);
    var p := if i >= k then i - k else i + |t| - k;
    assert r[p] == t[i];
    assert r[p - 1] == t[Prev(i, |t|)];
  }

  /**
   * Where find_first_entry lands on a ring in time order with its next
   * slot at `k`: on `k` itself, or on slot 0 when slot 0 and every slot
   * from `k` to the end hold the same (oldest) time.
   */
  lemma FirstEntryOfRing(t: seq<uint32>, k: nat, f: int)
    requires k < |t| && Chronological(t, k) && IsFirstEntry(t, f)
    ensures f == k || (f == 0 && forall i :: k <= i < |t| ==> t[i] == t[0])
  {
    var r := Rotate(t, k);
    assert r[0] == t[k];
    assert t[k] <= t[f] by {
      var p := if f >= k then f - k else f + |t| - k;
      assert r[p] == t[f];
    }
    if f < k {
      var pf := f + |t| - k;
      assert r[pf] == t[f];
      assert r[|t| - k] == t[0];
      assert t[0] == t[k];
      forall i | k <= i < |t|
        ensures t[i] == t[0]
      {
        assert r[i - k] == t[i];
      }
    }
  }

  /**
   * The table display_trace gets wrong: three slots written in the order
   * 2, 0, 1 at times 5, 5 and 7 (slot 2 first, next back at 2). The ring is
   * in time order from slot 2, but find_first_entry picks slot 0, so the
   * display shows times 5, 7, 5 and the oldest entry last.
   */
  lemma TiedTimesShownOutOfOrder()
    ensures var t: seq<uint32> := [5, 7, 5];
      && Chronological(t, 2) && IsFirstEntry(t, 0)
      && Visible(t, Walk(3, 0)) == [0, 1, 2]
      && !TimeOrdered(t, Visible(t, Walk(3, 0)))
  {
    var t: seq<uint32> := [5, 7, 5];
    assert Rotate(t, 2) == [5, 5, 7];
    var w := Walk(3, 0);
    assert w == [0, 1, 2];
    AllInUseVisible(t, w);
    assert t[w[1]] > t[w[2]];
  }

  /** When every entry `order` names is in use, all of them are shown. */
  lemma {:induction false} AllInUseVisible(t: seq<uint32>, order: seq<nat>)
    requires forall j :: 0 <= j < |order| ==> order[j] < |t| && t[order[j]] != 0
    ensures Visible(t, order) == order
    decreases |order|
  {
    if order != [] {
      var n := |order| - 1;
      AllInUseVisible(t, order[..n]);
      assert order[..n] + [order[n]] == order;
    }
  }

  /** The slot before `i` in a ring of `n` slots. */
  function Prev(i: nat, n: nat): nat
    requires i < n
  {
    if i == 0 then n - 1 else i - 1
  }

  /**
   * The start of the ring: the slot whose predecessor holds a later time,
   * or any slot when no such slot exists (all times are then equal).
   */
  predicate IsRingStart(t: seq<uint32>, s: int) {
    if |t| == 0 then s == 0
    else 0 <= s < |t| && (t[Prev(s, |t|)] > t[s] || forall i :: 0 <= i < |t| ==> t[Prev(i, |t|)] <= t[i])
  }

  /** Look for the slot where the times drop: the first entry written after the newest one. */
  method FindRingStart(table: seq<TraceEntry>) returns (s: int)
    ensures IsRingStart(Times(table), s)
  {
    ghost var t := Times(table);
    s := 0;
    var i := 0;
    while i < |table|
      invariant 0 <= i <= |table|
      invariant forall j :: 0 <= j < i ==> t[Prev(j, |t|)] <= t[j]
    {
      if table[Prev(i, |table|)].time > table[i].time {
        return i;
      }
      i := i + 1;
    }
  }

  /** A ring whose times never drop from one slot to the next holds one time throughout. */
  lemma {:induction false} NoDropAllEqual(t: seq<uint32>, i: nat)
    requires i < |t| && forall j :: 0 <= j < |t| ==> t[Prev(j, |t|)] <= t[j]
    ensures t[i] == t[0]
    decreases |t| - i
  {
    if i < |t| - 1 {
      NoDropAllEqual(t, i + 1);
      assert t[i] <= t[i + 1] by { assert Prev(i + 1, |t|) == i; }
      UpFromZero(t, i);
    } else {
      UpFromZero(t, i);
      assert t[i] <= t[0] by { assert Prev(0, |t|) == i; }
    }
  }

  /** Times never drop from slot 0 up to slot `i`. */
  lemma {:induction false} UpFromZero(t: seq<uint32>, i: nat)
    requires i < |t| && forall j :: 0 <= j < |t| ==> t[Prev(j, |t|)] <= t[j]
    ensures t[0] <= t[i]
    decreases i
  {
    if i > 0 {
      UpFromZero(t, i - 1);
      assert t[i - 1] <= t[i] by { assert Prev(i, |t|) == i - 1; }
    }
  }

  /**
   * The ring start is where the ring is in time order: whatever slot the
   * driver will write next, the walk from the ring start is chronological.
   */
  lemma RingStartIsChronological(t: seq<uint32>, k: nat, s: int)
    requires k < |t| && Chronological(t, k) && IsRingStart(t, s)
    ensures Chronological(t, s)
  {
    if t[Prev(s, |t|)] > t[s] {
      if s != k {
        RingNeighbours(t, k, s);
      }
    } else {
      forall i | 0 <= i < |t|
        ensures t[i] == t[0]
      {
        NoDropAllEqual(t, i);
      }
      var r := Rotate(t, s);
      assert forall j :: 0 <= j < |r| ==> r[j] == t[0];
    }
  }

  /**
   * display_trace with the walk started at the ring start: every entry in
   * use is shown once, in time order, whatever slot the driver writes next.
   */
  method DisplayTraceInOrder(table: seq<TraceEntry>) returns (first: int, shown: seq<nat>)
    ensures IsRingStart(Times(table), first)
    ensures shown == Visible(Times(table), Walk(|table|, first))
  {
    first := FindRingStart(table);
    shown := ShowFrom(table, first);
  }

  /** The corrected display of a ring in time order (the driver's InOrder) is in time order. */
  lemma InOrderShownInOrder(t: seq<uint32>, k: nat, s: int)
    requires k < |t| && Chronological(t, k) && IsRingStart(t, s)
    ensures TimeOrdered(t, Visible(t, Walk(|t|, s)))
  {
    RingStartIsChronological(t, k, s);
    ShownInOrder(t, s);
  }

  /**
   * As written, the display is in time order whenever find_first_entry
   * lands on the driver's next slot, in particular whenever slot 0 does
   * not share the oldest time with the slots from `k` on.
   */
  lemma FirstEntryShownInOrder(t: seq<uint32>, k: nat, f: int)
    requires k < |t| && Chronological(t, k) && IsFirstEntry(t, f) && f == k
    ensures TimeOrdered(t, Visible(t, Walk(|t|, f)))
  {
    ShownInOrder(t, k);
  }
}
