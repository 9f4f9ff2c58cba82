/**
 What a processor guarantees over any finite sequence of arrivals, whatever the
 network lost, repeated or reordered.
 */
module Delivery {
  import opened Domain
  import opened Codec
  import opened SequencedBuffers
  import opened Processors

  /** Between calls: nothing is due, and early arrivals lie within the gap limit and the capacity. */
  ghost predicate Settled(b: Buffer<Packet>, limits: Limits) {
    && (b.exhausted ==> b.next == None)
    && (b.next == None ==> b.pending == map[])
    && (forall k :: k in b.pending ==> b.next.Some? && b.next.value < k <= b.next.value + limits.maximumGap)
    && (forall k :: k in b.pending ==> b.pending[k].sequence == k)
    && |b.pending| <= limits.maximumPending
  }

  /** While draining, the next packet may be due. */
  ghost predicate Draining(b: Buffer<Packet>, lo: nat, limits: Limits) {
    && (b.exhausted ==> b.next == None && b.pending == map[])
    && (b.next == None ==> b.exhausted)
    && (b.next.Some? ==> lo <= b.next.value)
    && (forall k :: k in b.pending ==> b.next.Some? && b.next.value <= k <= lo + limits.maximumGap)
    && (forall k :: k in b.pending ==> b.pending[k].sequence == k)
    && |b.pending| <= limits.maximumPending
  }

  /** The next sequence number expected: 2^64 once the range has ended. */
  function Position(b: Buffer<Packet>): nat
    requires b.next.Some? || b.exhausted
  {
    if b.next.Some? then b.next.value else WORD
  }

  function Sequences(packets: seq<Packet>): (s: set<nat>) {
    set i | 0 <= i < |packets| :: packets[i].sequence as nat
  }

  /** Packets numbered lo, lo + 1, ... without a gap. */
  ghost predicate Consecutive(packets: seq<Packet>, lo: nat) {
    forall i :: 0 <= i < |packets| ==> packets[i].sequence == lo + i
  }

  /**
   Draining releases exactly the contiguous run that is here, each packet as it was
   stored, and keeps the rest.
   */
  ghost predicate Drained(b: Buffer<Packet>, b': Buffer<Packet>, released: seq<Packet>)
    requires b.next.Some? || b.exhausted
  {
    && (b'.next.Some? || b'.exhausted)
    && Position(b') == Position(b) + |released|
    && Consecutive(released, Position(b))
    && (forall k :: k in b.pending <==> k in b'.pending || k in Sequences(released))
    && (forall k :: k in b'.pending ==> k in b.pending && b'.pending[k] == b.pending[k])
    && (forall i :: 0 <= i < |released| ==>
          released[i].sequence in b.pending && b.pending[released[i].sequence] == released[i])
  }

  lemma {:induction false} PoppedDraining(b: Buffer<Packet>, lo: nat, limits: Limits)
    requires Draining(b, lo, limits) && Due(b)
    ensures Draining(Popped(b), lo, limits) && Position(Popped(b)) == Position(b) + 1
    ensures |Popped(b).pending| + 1 == |b.pending|
    ensures forall k :: k in b.pending <==> k == b.next.value || k in Popped(b).pending
    ensures forall k :: k in Popped(b).pending ==> b.pending[k] == Popped(b).pending[k] && b.next.value < k
  {
    var p := b.next.value;
    assert b.pending.Keys == Popped(b).pending.Keys + {p};
    if p == WORD - 1 {
      assert forall k :: k in b.pending ==> k == p;
      assert Popped(b).pending == map[];
    }
  }

  lemma {:induction false} DrainReleases(b: Buffer<Packet>, lo: nat, limits: Limits)
    requires Draining(b, lo, limits)
    ensures Drained(b, Drain(b).0, Drain(b).1)
    ensures Draining(Drain(b).0, lo, limits) && !Due(Drain(b).0)
    ensures |b.pending| == |Drain(b).0.pending| + |Drain(b).1|
    decreases |b.pending|
  {
    hide Due, Popped, Drain;
    DrainStep(b);
    if Due(b) {
      PoppedDraining(b, lo, limits);
      DrainReleases(Popped(b), lo, limits);
      DrainedMore(b, Popped(b), Drain(Popped(b)).0, Drain(Popped(b)).1);
    }
  }

  lemma {:induction false} DrainedMore(b: Buffer<Packet>, c: Buffer<Packet>, b': Buffer<Packet>, rest: seq<Packet>)
    requires b.next.Some? && b.next.value in b.pending && (c.next.Some? || c.exhausted)
    requires Position(c) == Position(b) + 1 && Drained(c, b', rest)
    requires b.pending[b.next.value].sequence == b.next.value
    requires forall k :: k in b.pending <==> k == b.next.value || k in c.pending
    requires forall k :: k in c.pending ==> b.pending[k] == c.pending[k] && b.next.value < k
    ensures Drained(b, b', [b.pending[b.next.value]] + rest)
  {
    var first := b.pending[b.next.value];
    var released := [first] + rest;
    SequencesCons(first, rest);
    forall i | 0 <= i < |released|
      ensures released[i].sequence == Position(b) + i
      ensures released[i].sequence in b.pending && b.pending[released[i].sequence] == released[i]
    {
      if i > 0 {
        assert released[i] == rest[i - 1];
      }
    }
  }

  lemma SequencesCons(p: Packet, rest: seq<Packet>)
    ensures Sequences([p] + rest) == {p.sequence as nat} + Sequences(rest)
  {
    var all := [p] + rest;
    forall k
      ensures k in Sequences(all) <==> k == p.sequence || k in Sequences(rest)
    {
      if k in Sequences(rest) {
        var i :| 0 <= i < |rest| && rest[i].sequence == k;
        assert all[i + 1].sequence == k;
      }
      if k in Sequences(all) {
        var i :| 0 <= i < |all| && all[i].sequence == k;
        assert i > 0 ==> rest[i - 1].sequence == k;
      }
      assert all[0].sequence == p.sequence;
    }
  }

  // ---------- one call ----------

  /** What a `ready` call does: it delivers its packet and the contiguous run behind it. */
  ghost predicate Releases(b: Buffer<Packet>, p: Packet, x: Outcome) {
    && (x.buffer.next.Some? || x.buffer.exhausted)
    && x.delivered != [] && x.delivered[0] == p
    && Consecutive(x.delivered, p.sequence)
    && Position(x.buffer) == p.sequence + |x.delivered|
    && (forall k :: k in b.pending <==> k in x.buffer.pending || k in Sequences(x.delivered[1..]))
    && (forall k :: k in x.buffer.pending ==> k in b.pending && x.buffer.pending[k] == b.pending[k])
    && (forall i :: 1 <= i < |x.delivered| ==>
          x.delivered[i].sequence in b.pending && b.pending[x.delivered[i].sequence] == x.delivered[i])
    && |b.pending| + 1 == |x.buffer.pending| + |x.delivered|
  }

  lemma {:induction false} ReadyReleases(b: Buffer<Packet>, limits: Limits, p: Packet)
    requires Settled(b, limits) && !b.exhausted && (b.next == None || b.next == Some(p.sequence))
    ensures Processed(b, limits, p).ordering == Ready
    ensures Releases(b, p, Processed(b, limits, p)) && Settled(Processed(b, limits, p).buffer, limits)
  {
    hide Due, Drain, Drained, Releases, DistinctSequences;
    var pushed := AdvanceAfter(b, p.sequence);
    AdvancedDraining(b, limits, p.sequence);
    DrainReleases(pushed, p.sequence, limits);
    var (b', rest) := Drain(pushed);
    DrainedIsSettled(b', p.sequence, limits);
    DrainedReleases(b, p, pushed, b', rest);
  }

  lemma {:induction false} AdvancedDraining(b: Buffer<Packet>, limits: Limits, sequence: Uint64)
    requires Settled(b, limits) && !b.exhausted && (b.next == None || b.next == Some(sequence))
    ensures Draining(AdvanceAfter(b, sequence), sequence, limits)
  {
    var pushed := AdvanceAfter(b, sequence);
    assert sequence == WORD - 1 ==> pushed.pending == map[] by {
      assert forall k :: k in b.pending ==> sequence < k;
    }
  }

  /** Delivering p and then draining releases p and the contiguous run behind it. */
  lemma {:induction false} DrainedReleases(b: Buffer<Packet>, p: Packet, pushed: Buffer<Packet>, b': Buffer<Packet>,
                                           rest: seq<Packet>)
    requires pushed.pending == b.pending && (pushed.next.Some? || pushed.exhausted)
    requires Position(pushed) == p.sequence + 1 && Drained(pushed, b', rest)
    requires |b.pending| == |b'.pending| + |rest|
    ensures Releases(b, p, Outcome(b', Ready, [p] + rest))
  {
    assert ([p] + rest)[1..] == rest;
  }

  lemma DrainedIsSettled(b: Buffer<Packet>, lo: nat, limits: Limits)
    requires Draining(b, lo, limits) && !Due(b)
    ensures Settled(b, limits)
  {
  }

  /** Every call keeps the buffer settled, and never moves the expected sequence back. */
  lemma {:induction false} StepSettled(b: Buffer<Packet>, limits: Limits, p: Packet)
    requires Settled(b, limits)
    ensures var b' := Processed(b, limits, p).buffer;
            && Settled(b', limits)
            && (b.exhausted ==> b'.exhausted)
            && (b.next.Some? ==> b'.exhausted || (b'.next.Some? && b.next.value <= b'.next.value))
  {
    hide Drain;
    if !b.exhausted && (b.next == None || b.next == Some(p.sequence)) {
      ReadyReleases(b, limits, p);
    }
  }

  /** Between calls no push can step past a stored entry: this is what draining is for. */
  lemma SettledStepsPastNothing(b: Buffer<Packet>, limits: Limits, p: Packet)
    requires Settled(b, limits)
    ensures Ahead(b) && !StepsPast(b, Pushing(p.sequence, p))
  {
  }

  // ---------- a run of arrivals ----------

  datatype Transcript = Transcript(buffer: Buffer<Packet>, delivered: seq<Packet>, results: seq<SequenceResult>)

  ghost function Run(first: Option<Uint64>, limits: Limits, arrivals: seq<Packet>): (t: Transcript)
    ensures |t.results| == |arrivals|
    decreases |arrivals|
  {
    if arrivals == [] then Transcript(Buffer(first, map[], false), [], [])
    else
      var n := |arrivals| - 1;
      var t := Run(first, limits, arrivals[..n]);
      var x := Processed(t.buffer, limits, arrivals[n]);
      Transcript(x.buffer, t.delivered + x.delivered, t.results + [x.ordering])
  }

  predicate Accepting(r: SequenceResult) {
    r == Ready || r == Buffered
  }

  /** The arrivals that were taken, delivered at once or kept for later. */
  function Accepted(arrivals: seq<Packet>, results: seq<SequenceResult>): seq<Packet>
    requires |arrivals| == |results|
    decreases |arrivals|
  {
    if arrivals == [] then []
    else
      var n := |arrivals| - 1;
      Accepted(arrivals[..n], results[..n]) + (if Accepting(results[n]) then [arrivals[n]] else [])
  }

  function Rejections(results: seq<SequenceResult>): nat {
    if results == [] then 0
    else
      var n := |results| - 1;
      Rejections(results[..n]) + (if Accepting(results[n]) then 0 else 1)
  }

  /** Where delivery started: the configured first sequence, or that of the first arrival. */
  function Start(first: Option<Uint64>, arrivals: seq<Packet>): nat {
    if first.Some? then first.value else if arrivals != [] then arrivals[0].sequence else 0
  }

  /** Delivered so far is one gap-free ascending run, ending just before the expected sequence. */
  ghost predicate InOrder(first: Option<Uint64>, arrivals: seq<Packet>, t: Transcript) {
    && Consecutive(t.delivered, Start(first, arrivals))
    && (t.buffer.next == None && !t.buffer.exhausted <==> arrivals == [] && first == None)
    && (arrivals == [] ==> t.delivered == [])
    && (t.buffer.next.Some? || t.buffer.exhausted ==> Position(t.buffer) == Start(first, arrivals) + |t.delivered|)
  }

  /** What one more arrival does, by what the call answers. */
  ghost predicate StepShape(b: Buffer<Packet>, p: Packet, x: Outcome) {
    match x.ordering
    case Ready => !b.exhausted && (b.next == None || b.next == Some(p.sequence)) && Releases(b, p, x)
    case Buffered =>
      && b.next.Some? && !b.exhausted && b.next.value < p.sequence && p.sequence !in b.pending
      && x.buffer == b.(pending := b.pending[p.sequence := p]) && x.delivered == []
    case _ => x.buffer == b && x.delivered == [] && (b.next.Some? || b.exhausted)
  }

  lemma {:induction false} StepHasShape(b: Buffer<Packet>, limits: Limits, p: Packet)
    requires Settled(b, limits)
    ensures StepShape(b, p, Processed(b, limits, p))
  {
    hide Drain, Releases, Settled;
    if !b.exhausted && (b.next == None || b.next == Some(p.sequence)) {
      ReadyReleases(b, limits, p);
    } else {
      NotDue(b, limits);
    }
  }

  lemma NotDue(b: Buffer<Packet>, limits: Limits)
    requires Settled(b, limits)
    ensures b.exhausted ==> b.next == None
  {
  }

  lemma {:induction false} InOrderStep(first: Option<Uint64>, arrivals: seq<Packet>, p: Packet, t: Transcript,
                                       x: Outcome)
    requires InOrder(first, arrivals, t) && StepShape(t.buffer, p, x)
    requires t.buffer.exhausted ==> t.buffer.next == None
    ensures InOrder(first, arrivals + [p], Transcript(x.buffer, t.delivered + x.delivered, t.results + [x.ordering]))
  {
    if x.ordering == Ready {
      var all := t.delivered + x.delivered;
      forall i | 0 <= i < |all|
        ensures all[i].sequence == Start(first, arrivals + [p]) + i
      {
        if i >= |t.delivered| {
          assert all[i] == x.delivered[i - |t.delivered|];
        }
      }
    } else {
      assert t.delivered + x.delivered == t.delivered;
    }
  }

  lemma {:induction false} DeliversInOrder(first: Option<Uint64>, limits: Limits, arrivals: seq<Packet>)
    ensures var t := Run(first, limits, arrivals);
            Settled(t.buffer, limits) && InOrder(first, arrivals, t)
    decreases |arrivals|
  {
    hide Processed, Settled, StepShape;
    if arrivals == [] {
      FreshSettled(first, limits);
    } else {
      var n := |arrivals| - 1;
      DeliversInOrder(first, limits, arrivals[..n]);
      var t := Run(first, limits, arrivals[..n]);
      StepSettled(t.buffer, limits, arrivals[n]);
      StepHasShape(t.buffer, limits, arrivals[n]);
      NotDue(t.buffer, limits);
      InOrderStep(first, arrivals[..n], arrivals[n], t, Processed(t.buffer, limits, arrivals[n]));
      assert arrivals[..n] + [arrivals[n]] == arrivals;
    }
  }

  lemma FreshSettled(first: Option<Uint64>, limits: Limits)
    ensures Settled(Buffer(first, map[], false), limits)
  {
  }

  // ---------- exactly once ----------

  ghost predicate Kept(b: Buffer<Packet>, p: Packet) {
    p.sequence in b.pending && b.pending[p.sequence] == p
  }

  ghost predicate DistinctSequences(packets: seq<Packet>) {
    forall i, j :: 0 <= i < j < |packets| ==> packets[i].sequence != packets[j].sequence
  }

  /** The accepted arrivals are the delivered and the pending packets, each once. */
  ghost predicate Accounted(accepted: seq<Packet>, delivered: seq<Packet>, b: Buffer<Packet>) {
    && DistinctSequences(accepted)
    && (forall p :: p in accepted <==> p in delivered || Kept(b, p))
    && |accepted| == |delivered| + |b.pending|
  }

  lemma {:induction false} AccountedStep(first: Option<Uint64>, arrivals: seq<Packet>, accepted: seq<Packet>,
                                         t: Transcript, p: Packet, x: Outcome, limits: Limits)
    requires Settled(t.buffer, limits) && InOrder(first, arrivals, t) && Accounted(accepted, t.delivered, t.buffer)
    requires StepShape(t.buffer, p, x)
    ensures Accounted(accepted + (if Accepting(x.ordering) then [p] else []), t.delivered + x.delivered, x.buffer)
  {
    if !Accepting(x.ordering) {
      assert accepted + [] == accepted && t.delivered + x.delivered == t.delivered;
    } else {
      NewSequence(first, arrivals, accepted, t, p, x, limits);
      var accepted' := accepted + [p];
      assert forall q :: q in accepted' <==> q in accepted || q == p;
      if x.ordering == Buffered {
        assert t.delivered + x.delivered == t.delivered;
        KeptMore(t.buffer, p, x);
      } else {
        KeptOrReleased(t.buffer, p, x);
      }
    }
  }

  /** An accepted arrival carries a sequence number not accepted before. */
  lemma {:induction false} NewSequence(first: Option<Uint64>, arrivals: seq<Packet>, accepted: seq<Packet>,
                                       t: Transcript, p: Packet, x: Outcome, limits: Limits)
    requires Settled(t.buffer, limits) && InOrder(first, arrivals, t) && Accounted(accepted, t.delivered, t.buffer)
    requires StepShape(t.buffer, p, x) && Accepting(x.ordering)
    ensures forall i :: 0 <= i < |accepted| ==> accepted[i].sequence != p.sequence
  {
    hide Releases;
    forall i | 0 <= i < |accepted|
      ensures accepted[i].sequence != p.sequence
    {
      var q := accepted[i];
      assert q in accepted;
      if q in t.delivered {
        var j :| 0 <= j < |t.delivered| && t.delivered[j] == q;
        assert q.sequence == Start(first, arrivals) + j;
      }
    }
  }

  lemma {:induction false} KeptMore(b: Buffer<Packet>, p: Packet, x: Outcome)
    requires x.ordering == Buffered && StepShape(b, p, x)
    ensures forall q :: Kept(x.buffer, q) <==> Kept(b, q) || q == p
    ensures |x.buffer.pending| == |b.pending| + 1
  {
    assert x.buffer.pending.Keys == b.pending.Keys + {p.sequence};
  }

  lemma {:induction false} KeptOrReleased(b: Buffer<Packet>, p: Packet, x: Outcome)
    requires x.ordering == Ready && StepShape(b, p, x)
    ensures forall q :: q in x.delivered || Kept(x.buffer, q) <==> q == p || Kept(b, q)
    ensures |b.pending| + 1 == |x.buffer.pending| + |x.delivered|
  {
    forall q
      ensures q in x.delivered || Kept(x.buffer, q) <==> q == p || Kept(b, q)
    {
      if q in x.delivered {
        var i :| 0 <= i < |x.delivered| && x.delivered[i] == q;
        assert i == 0 || Kept(b, q);
      }
      if Kept(b, q) && !Kept(x.buffer, q) {
        var tail := x.delivered[1..];
        assert q.sequence in Sequences(tail);
        var i :| 0 <= i < |tail| && tail[i].sequence == q.sequence;
        assert x.delivered[i + 1] == q;
      }
      assert x.delivered[0] == p;
    }
  }

  /**
   Exactly once: arrivals = delivered + pending + rejected; a sequence number is accepted
   at most once; and what is delivered or pending is, packet for packet, what was accepted.
   */
  lemma {:induction false} ExactlyOnce(first: Option<Uint64>, limits: Limits, arrivals: seq<Packet>)
    ensures var t := Run(first, limits, arrivals);
            && Accounted(Accepted(arrivals, t.results), t.delivered, t.buffer)
            && |arrivals| == |t.delivered| + |t.buffer.pending| + Rejections(t.results)
    decreases |arrivals|
  {
    hide Processed, Settled, StepShape, InOrder, Accounted;
    var t := Run(first, limits, arrivals);
    if arrivals == [] {
      NothingAccounted(first);
    } else {
      var n := |arrivals| - 1;
      ExactlyOnce(first, limits, arrivals[..n]);
      DeliversInOrder(first, limits, arrivals[..n]);
      var u := Run(first, limits, arrivals[..n]);
      var x := Processed(u.buffer, limits, arrivals[n]);
      StepHasShape(u.buffer, limits, arrivals[n]);
      AccountedStep(first, arrivals[..n], Accepted(arrivals[..n], u.results), u, arrivals[n], x, limits);
      assert t.results[..n] == u.results;
      AcceptedCounts(arrivals, t.results);
      AccountedCounts(Accepted(arrivals, t.results), t.delivered, t.buffer);
    }
  }

  lemma NothingAccounted(first: Option<Uint64>)
    ensures Accounted([], [], Buffer(first, map[], false))
  {
  }

  lemma AccountedCounts(accepted: seq<Packet>, delivered: seq<Packet>, b: Buffer<Packet>)
    requires Accounted(accepted, delivered, b)
    ensures |accepted| == |delivered| + |b.pending|
  {
  }

  lemma {:induction false} AcceptedCounts(arrivals: seq<Packet>, results: seq<SequenceResult>)
    requires |arrivals| == |results|
    ensures |arrivals| == |Accepted(arrivals, results)| + Rejections(results)
    decreases |arrivals|
  {
    if arrivals != [] {
      var n := |arrivals| - 1;
      AcceptedCounts(arrivals[..n], results[..n]);
    }
  }

  // ---------- the answer to each arrival ----------

  /** What the processor answers to p after these arrivals. */
  ghost function Answer(first: Option<Uint64>, limits: Limits, arrivals: seq<Packet>, p: Packet): SequenceResult {
    Run(first, limits, arrivals + [p]).results[|arrivals|]
  }

  /** Nothing has fixed the next sequence yet: no first sequence was given and nothing has arrived. */
  predicate Unfixed(first: Option<Uint64>, arrivals: seq<Packet>) {
    first == None && arrivals == []
  }

  lemma {:induction false} AnswerIsStep(first: Option<Uint64>, limits: Limits, arrivals: seq<Packet>, p: Packet)
    ensures Answer(first, limits, arrivals, p) == Processed(Run(first, limits, arrivals).buffer, limits, p).ordering
  {
    hide Processed;
    assert (arrivals + [p])[..|arrivals|] == arrivals;
  }

  /**
   Each of the six answers, for any arrival after any others, by where the packet's
   sequence lies: 2^64 is the position once the range has ended.
   */
  lemma {:induction false} AnswersTell(first: Option<Uint64>, limits: Limits, arrivals: seq<Packet>, p: Packet)
    requires !Unfixed(first, arrivals)
    ensures var t := Run(first, limits, arrivals);
            && (t.buffer.next.Some? || t.buffer.exhausted)
            && var at, pending := Position(t.buffer), t.buffer.pending;
            && (Answer(first, limits, arrivals, p) == Ready <==> p.sequence == at)
            && (Answer(first, limits, arrivals, p) == Old <==> p.sequence < at)
            && (Answer(first, limits, arrivals, p) == Duplicate <==> p.sequence in pending)
            && (Answer(first, limits, arrivals, p) == GapLimitExceeded <==>
                  at + limits.maximumGap < p.sequence && p.sequence !in pending)
            && (Answer(first, limits, arrivals, p) == CapacityExhausted <==>
                  && at < p.sequence <= at + limits.maximumGap
                  && p.sequence !in pending && |pending| == limits.maximumPending)
            && (Answer(first, limits, arrivals, p) == Buffered <==>
                  && at < p.sequence <= at + limits.maximumGap
                  && p.sequence !in pending && |pending| < limits.maximumPending)
  {
    hide Drain, InOrder;
    DeliversInOrder(first, limits, arrivals);
    Placed(first, arrivals, Run(first, limits, arrivals));
    AnswerIsStep(first, limits, arrivals, p);
  }

  lemma Placed(first: Option<Uint64>, arrivals: seq<Packet>, t: Transcript)
    requires InOrder(first, arrivals, t)
    ensures t.buffer.next.Some? || t.buffer.exhausted <==> !Unfixed(first, arrivals)
    ensures !Unfixed(first, arrivals) ==> Position(t.buffer) == Start(first, arrivals) + |t.delivered|
  {
  }

  /** The first packet of an unconfigured processor is taken whatever its sequence. */
  lemma {:induction false} FirstIsReady(limits: Limits, p: Packet)
    ensures Answer(None, limits, [], p) == Ready
  {
    hide Drain;
    AnswerIsStep(None, limits, [], p);
  }

  /** An arrival is old exactly when its sequence was delivered already or lies before the start. */
  lemma {:induction false} OldIsDelivered(first: Option<Uint64>, limits: Limits, arrivals: seq<Packet>, p: Packet)
    requires !Unfixed(first, arrivals)
    ensures Answer(first, limits, arrivals, p) == Old <==>
            p.sequence < Start(first, arrivals) || p.sequence in Sequences(Run(first, limits, arrivals).delivered)
  {
    hide Run, Answer;
    AnswersTell(first, limits, arrivals, p);
    DeliversInOrder(first, limits, arrivals);
    var t := Run(first, limits, arrivals);
    var lo := Start(first, arrivals);
    Placed(first, arrivals, t);
    if lo <= p.sequence < lo + |t.delivered| {
      assert t.delivered[p.sequence - lo].sequence == p.sequence;
    }
  }
}
