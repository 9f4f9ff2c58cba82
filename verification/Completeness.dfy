/** When the buffer is large enough for the reordering, nothing is refused and nothing is lost. */
module Completeness {
  import opened Domain
  import opened Codec
  import opened SequencedBuffers
  import opened Processors
  import opened Delivery

  // ---------- the pigeonhole bound ----------

  /** A set of numbers in (lo, lo + n] that misses one of them has fewer than n. */
  lemma {:induction false} Pigeonhole(s: set<Uint64>, lo: int, n: nat, missing: int)
    requires forall k :: k in s ==> lo < k <= lo + n && k != missing
    requires lo < missing <= lo + n
    ensures |s| < n
    decreases n
  {
    if missing == lo + n {
      AtMost(s, lo, n - 1);
    } else {
      var top := lo + n;
      var rest := set k | k in s && k != top;
      assert |s| <= |rest| + 1 by {
        if t: Uint64 :| t in s && t == top {
          assert s == rest + {t};
        } else {
          assert s == rest;
        }
      }
      Pigeonhole(rest, lo, n - 1, missing);
    }
  }

  lemma {:induction false} AtMost(s: set<Uint64>, lo: int, n: nat)
    requires forall k :: k in s ==> lo < k <= lo + n
    ensures |s| <= n
    decreases n
  {
    if n == 0 {
      assert s == {};
    } else {
      var top := lo + n;
      var rest := set k | k in s && k != top;
      assert |s| <= |rest| + 1 by {
        if t: Uint64 :| t in s && t == top {
          assert s == rest + {t};
        } else {
          assert s == rest;
        }
      }
      AtMost(rest, lo, n - 1);
    }
  }

  /** With room for a full gap the capacity is never what refuses a packet. */
  lemma {:induction false} NeverFull(b: Buffer<Packet>, limits: Limits, p: Packet)
    requires Settled(b, limits) && limits.maximumGap <= limits.maximumPending
    ensures Processed(b, limits, p).ordering != CapacityExhausted
  {
    hide Drain;
    if b.next.Some? && b.next.value < p.sequence <= b.next.value + limits.maximumGap && p.sequence !in b.pending {
      Pigeonhole(b.pending.Keys, b.next.value, limits.maximumGap, p.sequence);
      assert |b.pending| == |b.pending.Keys|;
    }
  }

  /** On any run: no `capacity_exhausted` when the capacity is at least the gap limit, as with 64 and 64. */
  lemma {:induction false} CapacityNeverExhausted(first: Option<Uint64>, limits: Limits, arrivals: seq<Packet>)
    requires limits.maximumGap <= limits.maximumPending
    ensures CapacityExhausted !in Run(first, limits, arrivals).results
    decreases |arrivals|
  {
    hide Processed, Settled;
    if arrivals != [] {
      var n := |arrivals| - 1;
      CapacityNeverExhausted(first, limits, arrivals[..n]);
      DeliversInOrder(first, limits, arrivals[..n]);
      NeverFull(Run(first, limits, arrivals[..n]).buffer, limits, arrivals[n]);
    }
  }

  // ---------- completeness under bounded reordering ----------

  /** The lowest sequence number from `first` on that has not arrived. */
  ghost predicate LowestMissing(first: nat, arrived: set<nat>, low: nat) {
    first <= low && low !in arrived && forall x :: first <= x < low ==> x in arrived
  }

  /** Every arrival is within the gap limit of the lowest number still missing when it arrives. */
  ghost predicate BoundedReordering(first: nat, limits: Limits, arrivals: seq<Packet>) {
    forall i: nat, low: nat :: i < |arrivals| && LowestMissing(first, Sequences(arrivals[..i]), low) ==>
      arrivals[i].sequence <= low + limits.maximumGap
  }

  /** The buffer knows exactly what has arrived: it expects the lowest missing number and holds everything above it. */
  ghost predicate Faithful(first: nat, arrived: set<nat>, b: Buffer<Packet>) {
    && (b.next.Some? || b.exhausted)
    && LowestMissing(first, arrived, Position(b))
    && (forall k: Uint64 :: k in b.pending <==> k in arrived && Position(b) < k)
  }

  lemma SequencesSnoc(packets: seq<Packet>, p: Packet)
    ensures Sequences(packets + [p]) == Sequences(packets) + {p.sequence as nat}
  {
    var all := packets + [p];
    forall k
      ensures k in Sequences(all) <==> k in Sequences(packets) || k == p.sequence
    {
      if k in Sequences(packets) {
        var i :| 0 <= i < |packets| && packets[i].sequence == k;
        assert all[i].sequence == k;
      }
      if k in Sequences(all) {
        var i :| 0 <= i < |all| && all[i].sequence == k;
        assert i < |packets| ==> packets[i].sequence == k;
      }
      assert all[|packets|].sequence == p.sequence;
    }
  }

  lemma {:induction false} FaithfulStep(first: nat, arrived: set<nat>, b: Buffer<Packet>, limits: Limits, p: Packet)
    requires Settled(b, limits) && Faithful(first, arrived, b)
    requires forall k :: k in arrived ==> k < WORD
    requires limits.maximumGap <= limits.maximumPending
    requires p.sequence <= Position(b) + limits.maximumGap
    ensures Faithful(first, arrived + {p.sequence as nat}, Processed(b, limits, p).buffer)
  {
    hide Drain, Settled, Releases;
    NotDue(b, limits);
    if !b.exhausted && b.next == Some(p.sequence) {
      ReadyReleases(b, limits, p);
      FaithfulReady(first, arrived, b, p, Processed(b, limits, p), limits);
    } else if !b.exhausted && b.next.value < p.sequence && p.sequence !in b.pending {
      NeverFull(b, limits, p);
    } else {
      assert arrived + {p.sequence as nat} == arrived || p.sequence < first;
    }
  }

  /** A `ready` call releases the numbers below its new position, and all of those were here. */
  lemma {:induction false} ReleasedBelow(b: Buffer<Packet>, p: Packet, x: Outcome)
    requires Releases(b, p, x)
    ensures forall k: Uint64 :: k in b.pending && k !in x.buffer.pending ==> k < Position(x.buffer)
    ensures forall k: Uint64 :: p.sequence < k < Position(x.buffer) ==> k in b.pending
  {
    var tail := x.delivered[1..];
    forall k: Uint64 | k in b.pending && k !in x.buffer.pending
      ensures k < Position(x.buffer)
    {
      var i :| 0 <= i < |tail| && tail[i].sequence == k;
      assert x.delivered[i + 1].sequence == p.sequence + i + 1;
    }
    forall k: Uint64 | p.sequence < k < Position(x.buffer)
      ensures k in b.pending
    {
      assert x.delivered[k - p.sequence].sequence == k;
    }
  }

  /** What stays pending after a `ready` call is exactly what lay beyond the new position. */
  lemma {:induction false} ReadyPending(b: Buffer<Packet>, p: Packet, x: Outcome, limits: Limits)
    requires Releases(b, p, x) && Settled(x.buffer, limits)
    ensures forall k: Uint64 :: k in x.buffer.pending <==> k in b.pending && Position(x.buffer) < k
    ensures forall k: Uint64 :: k in b.pending ==> k != Position(x.buffer)
  {
    hide Consecutive;
    ReleasedBelow(b, p, x);
  }

  lemma {:induction false} FaithfulReady(first: nat, arrived: set<nat>, b: Buffer<Packet>, p: Packet, x: Outcome,
                                         limits: Limits)
    requires Faithful(first, arrived, b) && b.next == Some(p.sequence) && Releases(b, p, x)
    requires Settled(x.buffer, limits)
    requires forall k :: k in arrived ==> k < WORD
    ensures Faithful(first, arrived + {p.sequence as nat}, x.buffer)
  {
    hide Releases, Settled;
    ReleasedBelow(b, p, x);
    ReadyPending(b, p, x, limits);
    ReleasesAdvances(b, p, x);
    forall k: nat | p.sequence < k < Position(x.buffer)
      ensures k in arrived
    {
      var w: Uint64 := k;
      assert w in b.pending;
    }
    forall k: nat | k in arrived && Position(b) < k
      ensures k != Position(x.buffer)
    {
      var w: Uint64 := k;
      assert w in b.pending;
    }
  }

  lemma ReleasesAdvances(b: Buffer<Packet>, p: Packet, x: Outcome)
    requires Releases(b, p, x)
    ensures (x.buffer.next.Some? || x.buffer.exhausted) && p.sequence < Position(x.buffer)
  {
  }

  lemma BoundedPrefix(first: nat, limits: Limits, arrivals: seq<Packet>, n: nat)
    requires n <= |arrivals| && BoundedReordering(first, limits, arrivals)
    ensures BoundedReordering(first, limits, arrivals[..n])
  {
    forall i: nat, low: nat | i < n && LowestMissing(first, Sequences(arrivals[..n][..i]), low)
      ensures arrivals[..n][i].sequence <= low + limits.maximumGap
    {
      assert arrivals[..n][..i] == arrivals[..i];
    }
  }

  /** Under bounded reordering the buffer always knows exactly what has arrived. */
  lemma {:induction false} StaysFaithful(first: Uint64, limits: Limits, arrivals: seq<Packet>)
    requires limits.maximumGap <= limits.maximumPending && BoundedReordering(first, limits, arrivals)
    ensures Faithful(first, Sequences(arrivals), Run(Some(first), limits, arrivals).buffer)
    decreases |arrivals|
  {
    hide Processed, Settled;
    if arrivals == [] {
      assert Sequences(arrivals) == {};
    } else {
      var n := |arrivals| - 1;
      BoundedPrefix(first, limits, arrivals, n);
      StaysFaithful(first, limits, arrivals[..n]);
      DeliversInOrder(Some(first), limits, arrivals[..n]);
      var b := Run(Some(first), limits, arrivals[..n]).buffer;
      FaithfulStep(first, Sequences(arrivals[..n]), b, limits, arrivals[n]);
      SequencesSnoc(arrivals[..n], arrivals[n]);
      assert arrivals[..n] + [arrivals[n]] == arrivals;
    }
  }

  /**
   Once first .. first + n - 1 have all arrived, in any order and with any duplicates,
   exactly that stream has been delivered, in order, and nothing is pending.
   */
  lemma {:induction false} Complete(first: Uint64, n: nat, limits: Limits, arrivals: seq<Packet>)
    requires limits.maximumGap <= limits.maximumPending && BoundedReordering(first, limits, arrivals)
    requires first + n <= WORD
    requires forall k: nat :: first <= k < first + n ==> k in Sequences(arrivals)
    requires forall i :: 0 <= i < |arrivals| ==> arrivals[i].sequence < first + n
    ensures var t := Run(Some(first), limits, arrivals);
            && |t.delivered| == n && Consecutive(t.delivered, first) && t.buffer.pending == map[]
            && (forall p :: p in t.delivered <==> p in Accepted(arrivals, t.results))
  {
    hide Settled;
    StaysFaithful(first, limits, arrivals);
    DeliversInOrder(Some(first), limits, arrivals);
    ExactlyOnce(Some(first), limits, arrivals);
    var t := Run(Some(first), limits, arrivals);
    assert forall k :: k in Sequences(arrivals) ==> k < first + n;
    assert first + n !in Sequences(arrivals);
    assert Position(t.buffer) == first + n;
    assert t.buffer.pending.Keys == {};
  }

  /** Packets that arrive in order and without gaps are delivered as they came, whatever the limits. */
  lemma {:induction false} InOrderDelivers(first: Uint64, limits: Limits, packets: seq<Packet>)
    requires Consecutive(packets, first)
    ensures var t := Run(Some(first), limits, packets);
            t.delivered == packets && t.buffer.pending == map[]
    decreases |packets|
  {
    hide Processed, Settled;
    if packets != [] {
      var n := |packets| - 1;
      InOrderDelivers(first, limits, packets[..n]);
      DeliversInOrder(Some(first), limits, packets[..n]);
      var b := Run(Some(first), limits, packets[..n]).buffer;
      assert packets[n].sequence == first + n;
      NotDue(b, limits);
      DeliversOne(b, limits, packets[n]);
      assert packets[..n] + [packets[n]] == packets;
    }
  }

  lemma {:induction false} DeliversOne(b: Buffer<Packet>, limits: Limits, p: Packet)
    requires Settled(b, limits) && !b.exhausted && b.next == Some(p.sequence) && b.pending == map[]
    ensures Processed(b, limits, p).delivered == [p] && Processed(b, limits, p).buffer.pending == map[]
  {
    hide Processed, Settled;
    ReadyReleases(b, limits, p);
  }
}
