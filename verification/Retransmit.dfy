/** The retransmission queue: what cleaning it keeps, and how often an entry can be sent again. */
module Retransmit {
  import opened Base
  import opened Time
  import opened Tcp

  // ---- Cleanup ----

  ghost predicate Sorted(q: seq<Entry>) {
    forall i, j :: 0 <= i < j < |q| ==> q[i].seqno <= q[j].seqno
  }

  ghost predicate Within(q: seq<Entry>, lo: int, hi: int) {
    forall i :: 0 <= i < |q| ==> lo <= q[i].seqno < hi
  }

  /** The entries that start at or above `una`, wherever they stand in the queue. */
  function Unacked(q: seq<Entry>, una: u32): seq<Entry> {
    if q == [] then []
    else (if q[0].seqno >= una then [q[0]] else []) + Unacked(q[1..], una)
  }

  lemma {:induction false} UnackedAll(q: seq<Entry>, una: u32)
    requires forall i :: 0 <= i < |q| ==> q[i].seqno >= una
    ensures Unacked(q, una) == q
  {
    if q == [] {
    } else {
      UnackedAll(q[1..], una);
    }
  }

  /** On a sorted queue, stopping at the first entry not below `una` removes exactly the entries below it. */
  lemma {:induction false} CleanupIsFilter(q: seq<Entry>, una: u32)
    requires Sorted(q)
    ensures Cleanup(q, una) == Unacked(q, una)
  {
    if q == [] {
    } else {
      if q[0].seqno >= una {
        UnackedAll(q, una);
      } else {
        CleanupIsFilter(q[1..], una);
      }
    }
  }

  /** Cleanup keeps a suffix of the queue; nothing below `una` stays in a sorted one. */
  lemma {:induction false} CleanupSuffix(q: seq<Entry>, una: u32) returns (k: nat)
    ensures k <= |q| && Cleanup(q, una) == q[k..]
    ensures forall i :: 0 <= i < k ==> q[i].seqno < una
    ensures k < |q| ==> q[k].seqno >= una
  {
    if q == [] || q[0].seqno >= una {
      k := 0;
    } else {
      var k' := CleanupSuffix(q[1..], una);
      k := k' + 1;
      assert q[1..][k'..] == q[k..];
      forall i | 0 <= i < k ensures q[i].seqno < una {
        if i > 0 { assert q[i] == q[1..][i - 1]; }
      }
    }
  }

  /** What the sequence-number invariant needs of a cleanup. */
  lemma CleanupKeeps(q: seq<Entry>, lo: int, una: u32, hi: int)
    requires Sorted(q) && Within(q, lo, hi)
    ensures Sorted(Cleanup(q, una)) && Within(Cleanup(q, una), una, hi)
    ensures una >= hi ==> Cleanup(q, una) == []
    ensures q != [] && q[|q| - 1].seqno >= una ==>
              Cleanup(q, una) != [] && Cleanup(q, una)[|Cleanup(q, una)| - 1] == q[|q| - 1]
  {
  }

  // ---- Exponential back-off ----

  /** An entry that has been sent again `n` times. */
  ghost predicate Resent(e: Entry, n: nat) {
    && Normal(e.first) && Normal(e.last)
    && e.rto == 200_000 * Pow2(n)
    && Micros(e.last) >= Micros(e.first) + 200_000 * (Pow2(n) - 1)
  }

  lemma Pow2UpTo5(n: nat)
    requires n <= 5
    ensures 1 <= Pow2(n) <= 32
    ensures n <= 4 ==> Pow2(n) <= 16
  {
  }

  /**
   * One visit of the timer, in microseconds: the seconds-only test of the deadline and the field-wise comparison with
   * the due time lose nothing.
   */
  lemma EmitInMicros(e: Entry, now: Timeval)
    requires Normal(e.first) && Normal(e.last) && Normal(now)
    ensures EmitEntry(e, now) ==
            if Micros(now) - Micros(e.first) >= 12_000_000 then Expired
            else if Micros(now) > Micros(e.last) + e.rto then Again(e.(last := now, rto := e.rto * 2))
            else Waiting
  {
  }

  /** Sending an entry again doubles its back-off, and the deadline leaves room for five times only. */
  lemma AgainCounts(e: Entry, now: Timeval, n: nat)
    requires Resent(e, n) && n <= 5 && Normal(now)
    requires EmitEntry(e, now).Again?
    ensures n < 5
    ensures Resent(EmitEntry(e, now).entry, n + 1)
  {
  }

  predicate AllNormal(clock: seq<Timeval>) { forall t :: t in clock ==> Normal(t) }

  /** The timer visiting one entry at the given clock readings, with the number of times it was sent again. */
  function Visits(e: Entry, clock: seq<Timeval>): (r: (Entry, nat))
    requires Normal(e.first) && Normal(e.last)
    requires AllNormal(clock)
    ensures Normal(r.0.first) && Normal(r.0.last)
  {
    if clock == [] then (e, 0)
    else
      var v := Visits(e, clock[..|clock| - 1]);
      match EmitEntry(v.0, clock[|clock| - 1])
      case Again(e') => (e', v.1 + 1)
      case _ => v
  }

  /**
   * For every sequence of clock readings, even one that runs backwards: at most five retransmissions, each doubling a
   * time-out that never passes 6.4 seconds.
   */
  lemma {:induction false} AtMostFiveRetransmissions(e: Entry, clock: seq<Timeval>)
    requires Resent(e, 0)
    requires AllNormal(clock)
    ensures var (e', n) := Visits(e, clock);
            n <= 5 && Resent(e', n) && e'.rto <= 6_400_000
  {
    if clock == [] {
    } else {
      var before := clock[..|clock| - 1];
      AtMostFiveRetransmissions(e, before);
      var (e1, n) := Visits(e, before);
      var now := clock[|clock| - 1];
      if EmitEntry(e1, now).Again? {
        AgainCounts(e1, now, n);
        Pow2UpTo5(n + 1);
      }
    }
  }
}
