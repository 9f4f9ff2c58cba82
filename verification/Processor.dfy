/** Ordered delivery: push a decoded packet, then deliver everything that is due. */
module Processors {
  import opened Domain
  import opened Codec
  import opened SequencedBuffers

  /** The packets released one after another while the next one due is already here. */
  ghost function Drain(b: Buffer<Packet>): (Buffer<Packet>, seq<Packet>)
    decreases |b.pending|
  {
    if Due(b) then
      var first := b.pending[b.next.value];
      assert b.pending.Keys == (b.pending - {b.next.value}).Keys + {b.next.value};
      var (b', rest) := Drain(Popped(b));
      (b', [first] + rest)
    else (b, [])
  }

  lemma DrainStep(b: Buffer<Packet>)
    ensures Due(b) ==>
      && b.next.Some? && b.next.value in b.pending
      && Drain(b) == (Drain(Popped(b)).0, [b.pending[b.next.value]] + Drain(Popped(b)).1)
      && |Popped(b).pending| < |b.pending|
    ensures !Due(b) ==> Drain(b) == (b, [])
  {
    if Due(b) {
      assert b.pending.Keys == (b.pending - {b.next.value}).Keys + {b.next.value};
    }
  }

  /** What has been delivered, and what draining from here would deliver, is what was owed at the start. */
  ghost predicate Owed(start: Buffer<Packet>, value: Packet, now: Buffer<Packet>, delivered: seq<Packet>) {
    Drain(start).0 == Drain(now).0 && [value] + Drain(start).1 == delivered + Drain(now).1
  }

  lemma OwedStart(start: Buffer<Packet>, value: Packet)
    ensures Owed(start, value, start, [value])
  {
  }

  lemma OwedStep(start: Buffer<Packet>, value: Packet, now: Buffer<Packet>, delivered: seq<Packet>)
    requires Owed(start, value, now, delivered)
    ensures Due(now) ==>
      now.next.Some? && now.next.value in now.pending
      && Owed(start, value, Popped(now), delivered + [now.pending[now.next.value]])
  {
    hide Popped, Due;
    DrainStep(now);
    if Due(now) {
      var p := now.pending[now.next.value];
      assert delivered + ([p] + Drain(Popped(now)).1) == (delivered + [p]) + Drain(Popped(now)).1;
    }
  }

  lemma OwedEnd(start: Buffer<Packet>, value: Packet, now: Buffer<Packet>, delivered: seq<Packet>)
    requires Owed(start, value, now, delivered) && !Due(now)
    ensures Drain(start).0 == now && [value] + Drain(start).1 == delivered
  {
    DrainStep(now);
  }

  datatype Outcome = Outcome(buffer: Buffer<Packet>, ordering: SequenceResult, delivered: seq<Packet>)

  ghost function Processed(b: Buffer<Packet>, limits: Limits, p: Packet): Outcome {
    var (pushed, ordering) := Pushed(b, limits, p.sequence, p);
    if ordering != Ready then Outcome(pushed, ordering, [])
    else
      var (b', rest) := Drain(pushed);
      Outcome(b', ordering, [p] + rest)
  }

  class Processor {
    const packets: SequencedBuffer<Packet>

    constructor (limits: Limits, firstSequence: Option<Uint64>)
      ensures packets.limits == limits && packets.State() == Buffer(firstSequence, map[], false)
      ensures fresh(packets)
    {
      packets := new SequencedBuffer(limits, firstSequence);
    }

    /** `delivered` lists the packets handed to the consumer, in order. */
    method Process(value: Packet) returns (ordering: SequenceResult, delivered: seq<Packet>)
      modifies packets
      ensures Outcome(packets.State(), ordering, delivered) == Processed(old(packets.State()), packets.limits, value)
    {
      ordering := packets.Push(value.sequence, value);
      delivered := [];
      if ordering != Ready {
        return;
      }
      hide Due, Popped, Drain, Owed;
      ghost var start := packets.State();
      OwedStart(start, value);
      delivered := [value];
      var draining := true;
      while draining
        invariant Owed(start, value, packets.State(), delivered)
        invariant !draining ==> !Due(packets.State())
        decreases |packets.pending|, draining
      {
        OwedStep(start, value, packets.State(), delivered);
        DrainStep(packets.State());
        var queued := packets.PopReady();
        if queued.Some? {
          delivered := delivered + [queued.value];
        } else {
          draining := false;
        }
      }
      OwedEnd(start, value, packets.State(), delivered);
    }
  }
}
