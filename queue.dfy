/**
 * The driver's datagram queues (port.send, port.receive and arpwait). A
 * queue is the sequence of datagrams reached by following the `next`
 * links from its head, so appending is the pointer walk to the tail and
 * dequeuing is unlinking the head.
 */
module DgramQueue {
  import opened StingTypes

  /**
   * What dequeue_dgram leaves: the first datagram that is not expired and
   * the queue behind it, or nothing and an empty queue.
   */
  function Dequeued(q: seq<Dgram>, expired: iset<Dgram>): (Option<Dgram>, seq<Dgram>)
  {
    if q == [] then (None, [])
    else if q[0] in expired then Dequeued(q[1..], expired)
    else (Some(q[0]), q[1..])
  }

  /** The datagrams of q that are not expired, in queue order. */
  function Live(q: seq<Dgram>, expired: iset<Dgram>): seq<Dgram>
  {
    if q == [] then []
    else if q[0] in expired then Live(q[1..], expired)
    else [q[0]] + Live(q[1..], expired)
  }

  /** Live(q) is a subsequence of q: its datagrams are q's own, none expired, in queue order. */
  lemma {:induction false} LiveIsLive(q: seq<Dgram>, expired: iset<Dgram>)
    ensures |Live(q, expired)| <= |q|
    ensures forall x :: x in Live(q, expired) ==> x in q && x !in expired
    ensures Interleaves(q, Live(q, expired), Dead(q, expired))
    decreases |q|
  {
    if q != [] {
      LiveIsLive(q[1..], expired);
      assert [q[0]] + q[1..] == q;
      InterleavesPrepend(q[1..], Live(q[1..], expired), Dead(q[1..], expired), q[0], q[0] !in expired);
    }
  }

  /** The expired datagrams of q, in queue order. */
  function Dead(q: seq<Dgram>, expired: iset<Dgram>): seq<Dgram>
  {
    if q == [] then []
    else if q[0] in expired then [q[0]] + Dead(q[1..], expired)
    else Dead(q[1..], expired)
  }

  /**
   * dequeue_dgram: unlink datagrams from the head until one is not expired
   * (check_dgram_ttl, the `expired` oracle, disposes of the expired ones).
   * `dropped` are the expired datagrams unlinked on the way.
   */
  method Dequeue(q: seq<Dgram>, expired: iset<Dgram>) returns (d: Option<Dgram>, rest: seq<Dgram>, dropped: seq<Dgram>)
    ensures (d, rest) == Dequeued(q, expired)
    ensures d.None? ==> rest == [] && dropped == q
    ensures d.Some? ==> q == dropped + [d.value] + rest && d.value !in expired
    ensures forall i :: 0 <= i < |dropped| ==> dropped[i] in expired
  {
    d, rest, dropped := None, q, [];
    while rest != [] && d.None?
      invariant d.None? ==> q == dropped + rest && Dequeued(rest, expired) == Dequeued(q, expired)
      invariant d.Some? ==> q == dropped + [d.value] + rest && d.value !in expired && (d, rest) == Dequeued(q, expired)
      invariant forall i :: 0 <= i < |dropped| ==> dropped[i] in expired
      decreases |rest|
    {
      var head := rest[0];
      if head in expired {
        dropped := dropped + [head];
        rest := rest[1..];
      } else {
        d := Some(head);
        rest := rest[1..];
      }
    }
  }

  /** queue_dgram: the datagram is linked in at the tail. */
  function Enqueue(q: seq<Dgram>, d: Dgram): (r: seq<Dgram>)
    ensures |r| == |q| + 1 && r[|q|] == d && r[..|q|] == q
  {
    q + [d]
  }

  /**
   * Dequeuing hands out the live datagrams one by one in queue order:
   * the one returned heads Live(q), and the live datagrams behind it are
   * exactly those of the remaining queue.
   */
  lemma {:induction false} DequeuedIsFirstLive(q: seq<Dgram>, expired: iset<Dgram>)
    ensures Dequeued(q, expired).0.None? <==> Live(q, expired) == []
    ensures Dequeued(q, expired).0.None? ==> Dequeued(q, expired).1 == []
    ensures Dequeued(q, expired).0.Some? ==>
      Live(q, expired) == [Dequeued(q, expired).0.value] + Live(Dequeued(q, expired).1, expired)
    decreases |q|
  {
    if q != [] && q[0] in expired {
      DequeuedIsFirstLive(q[1..], expired);
    }
  }

  /** Live distributes over concatenation, so appending at the tail appends to the live datagrams. */
  lemma {:induction false} LiveAppend(q: seq<Dgram>, p: seq<Dgram>, expired: iset<Dgram>)
    ensures Live(q + p, expired) == Live(q, expired) + Live(p, expired)
    decreases |q|
  {
    if q == [] {
      assert q + p == p;
    } else {
      assert (q + p)[1..] == q[1..] + p;
      LiveAppend(q[1..], p, expired);
    }
  }

  /**
   * First in, first out: a datagram appended with queue_dgram is dequeued
   * after every live datagram already queued, and does not disturb them.
   */
  lemma {:induction false} DequeueAfterEnqueue(q: seq<Dgram>, x: Dgram, expired: iset<Dgram>)
    ensures Dequeued(q, expired).0.Some? ==>
      Dequeued(Enqueue(q, x), expired) == (Dequeued(q, expired).0, Dequeued(q, expired).1 + [x])
    ensures Dequeued(q, expired).0.None? ==>
      Dequeued(Enqueue(q, x), expired) == if x in expired then (None, []) else (Some(x), [])
    decreases |q|
  {
    if q == [] {
      assert Enqueue(q, x) == [x];
      assert [x][1..] == [];
    } else {
      assert Enqueue(q, x)[1..] == Enqueue(q[1..], x);
      if q[0] in expired {
        DequeueAfterEnqueue(q[1..], x, expired);
      } else {
        assert q[1..] + [x] == Enqueue(q, x)[1..];
      }
    }
  }

  /**
   * `a` and `b` split `s` between them, each keeping the order the
   * datagrams have in `s`: the way a loop that routes every datagram it
   * takes to one of two queues leaves them.
   */
  ghost predicate Interleaves(s: seq<Dgram>, a: seq<Dgram>, b: seq<Dgram>)
    decreases |s|
  {
    if s == [] then a == [] && b == []
    else
      || (a != [] && a[|a| - 1] == s[|s| - 1] && Interleaves(s[..|s| - 1], a[..|a| - 1], b))
      || (b != [] && b[|b| - 1] == s[|s| - 1] && Interleaves(s[..|s| - 1], a, b[..|b| - 1]))
  }

  lemma InterleaveLeft(s: seq<Dgram>, a: seq<Dgram>, b: seq<Dgram>, x: Dgram)
    requires Interleaves(s, a, b)
    ensures Interleaves(s + [x], a + [x], b)
  {
    assert (s + [x])[..|s|] == s && (a + [x])[..|a|] == a;
  }

  lemma InterleaveRight(s: seq<Dgram>, a: seq<Dgram>, b: seq<Dgram>, x: Dgram)
    requires Interleaves(s, a, b)
    ensures Interleaves(s + [x], a, b + [x])
  {
    assert (s + [x])[..|s|] == s && (b + [x])[..|b|] == b;
  }

  /** Nothing is lost or duplicated: every datagram of `s` is in exactly one of `a` and `b`. */
  lemma {:induction false} InterleavesSplits(s: seq<Dgram>, a: seq<Dgram>, b: seq<Dgram>)
    requires Interleaves(s, a, b)
    ensures multiset(s) == multiset(a) + multiset(b) && |s| == |a| + |b|
    decreases |s|
  {
    if s != [] {
      var s', x := s[..|s| - 1], s[|s| - 1];
      LastOff(s);
      if a != [] && a[|a| - 1] == x && Interleaves(s', a[..|a| - 1], b) {
        InterleavesSplits(s', a[..|a| - 1], b);
        LastOff(a);
      } else {
        InterleavesSplits(s', a, b[..|b| - 1]);
        LastOff(b);
      }
    }
  }

  /** A non-empty queue is its front followed by its last datagram. */
  lemma LastOff(s: seq<Dgram>)
    requires s != []
    ensures multiset(s) == multiset(s[..|s| - 1]) + multiset{s[|s| - 1]}
  {
    assert s == s[..|s| - 1] + [s[|s| - 1]];
  }

  /** Putting one datagram in front of `s` and of one of the two parts keeps the split. */
  lemma {:induction false} InterleavesPrepend(s: seq<Dgram>, a: seq<Dgram>, b: seq<Dgram>, x: Dgram, left: bool)
    requires Interleaves(s, a, b)
    ensures left ==> Interleaves([x] + s, [x] + a, b)
    ensures !left ==> Interleaves([x] + s, a, [x] + b)
    decreases |s|
  {
    if s == [] {
      assert [x] + s == [x] && [x][..0] == [];
      assert left ==> [x] + a == [x];
      assert !left ==> [x] + b == [x];
    } else {
      var y := s[|s| - 1];
      assert ([x] + s)[..|s|] == [x] + s[..|s| - 1];
      if a != [] && a[|a| - 1] == y && Interleaves(s[..|s| - 1], a[..|a| - 1], b) {
        InterleavesPrepend(s[..|s| - 1], a[..|a| - 1], b, x, left);
        assert ([x] + a)[..|a|] == [x] + a[..|a| - 1];
      } else {
        InterleavesPrepend(s[..|s| - 1], a, b[..|b| - 1], x, left);
        assert ([x] + b)[..|b|] == [x] + b[..|b| - 1];
      }
    }
  }
}
