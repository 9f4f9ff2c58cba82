/** The bounded reorder buffer in front of a feed consumer. */
module SequencedBuffers {
  import opened Domain

  datatype Limits = Limits(maximumPending: nat, maximumGap: Uint64)

  datatype SequenceResult = Ready | Buffered | Old | Duplicate | GapLimitExceeded | CapacityExhausted

  /** What the buffer holds: the next expected sequence (if known), early arrivals, and whether the range has ended. */
  datatype Buffer<T> = Buffer(next: Option<Uint64>, pending: map<Uint64, T>, exhausted: bool)

  function AdvanceAfter<T>(b: Buffer<T>, sequence: Uint64): Buffer<T> {
    if sequence == WORD - 1 then Buffer(None, b.pending, true) else b.(next := Some(sequence + 1))
  }

  function Pushed<T>(b: Buffer<T>, limits: Limits, sequence: Uint64, value: T): (Buffer<T>, SequenceResult) {
    if b.exhausted then (b, Old)
    else if b.next == None then (AdvanceAfter(b, sequence), Ready)
    else if sequence < b.next.value then (b, Old)
    else if sequence == b.next.value then (AdvanceAfter(b, sequence), Ready)
    else if sequence in b.pending then (b, Duplicate)
    else if sequence - b.next.value > limits.maximumGap then (b, GapLimitExceeded)
    else if |b.pending| >= limits.maximumPending then (b, CapacityExhausted)
    else (b.(pending := b.pending[sequence := value]), Buffered)
  }

  /** Some early arrival is due. */
  ghost predicate Due<T>(b: Buffer<T>) {
    b.next.Some? && !b.exhausted && b.next.value in b.pending
    && forall k :: k in b.pending ==> b.next.value <= k
  }

  function Popped<T>(b: Buffer<T>): Buffer<T>
    requires b.next.Some?
  {
    AdvanceAfter(b.(pending := b.pending - {b.next.value}), b.next.value)
  }

  ghost predicate Least(keys: set<Uint64>, k: Uint64) {
    k in keys && forall x :: x in keys ==> k <= x
  }

  /** A non-empty ordered map has a first entry. */
  lemma {:induction false} LeastOf(keys: set<Uint64>) returns (k: Uint64)
    requires keys != {}
    ensures Least(keys, k)
  {
    k :| k in keys;
    var others := keys - {k};
    if others != {} {
      var m := LeastOf(others);
      forall x | x in keys
        ensures m <= x || k <= x
      {
        assert x == k || x in others;
      }
      k := if k <= m then k else m;
    } else {
      forall x | x in keys
        ensures x == k
      {
        assert x !in others;
      }
    }
  }

  lemma LeastExists(keys: set<Uint64>)
    requires keys != {}
    ensures exists k :: Least(keys, k)
  {
    var k := LeastOf(keys);
  }

  function First<T>(pending: map<Uint64, T>): (k: Uint64)
    requires pending != map[]
    ensures Least(pending.Keys, k)
  {
    assert pending.Keys != {};
    LeastExists(pending.Keys);
    var k :| k in pending.Keys && forall x :: x in pending.Keys ==> k <= x;
    k
  }

  class SequencedBuffer<T> {
    const limits: Limits
    var nextSequence: Option<Uint64>
    var pending: map<Uint64, T>
    var sequenceExhausted: bool

    constructor (limits: Limits, firstSequence: Option<Uint64>)
      ensures this.limits == limits && State() == Buffer(firstSequence, map[], false)
    {
      this.limits, nextSequence, pending, sequenceExhausted := limits, firstSequence, map[], false;
    }

    function State(): Buffer<T>
      reads this
    {
      Buffer(nextSequence, pending, sequenceExhausted)
    }

    method AdvancePast(sequence: Uint64)
      modifies this
      ensures State() == AdvanceAfter(old(State()), sequence)
    {
      if sequence == 0xffff_ffff_ffff_ffff {
        sequenceExhausted := true;
        nextSequence := None;
        return;
      }
      nextSequence := Some(sequence + 1);
    }

    /** `value` is what the factory would build; it is kept only when the result is `Buffered`. */
    method Push(sequence: Uint64, value: T) returns (r: SequenceResult)
      modifies this
      ensures (State(), r) == Pushed(old(State()), limits, sequence, value)
    {
      if sequenceExhausted {
        return Old;
      }
      if nextSequence == None {
        AdvancePast(sequence);
        return Ready;
      }
      if sequence < nextSequence.value {
        return Old;
      }
      if sequence == nextSequence.value {
        AdvancePast(sequence);
        return Ready;
      }
      if sequence in pending {
        return Duplicate;
      }
      if sequence - nextSequence.value > limits.maximumGap {
        return GapLimitExceeded;
      }
      if |pending| >= limits.maximumPending {
        return CapacityExhausted;
      }
      pending := pending[sequence := value];
      return Buffered;
    }

    /** Releases the first early arrival if it is the next one due. */
    method PopReady() returns (r: Option<T>)
      modifies this
      ensures if Due(old(State())) then r == Some(old(pending)[old(nextSequence).value])
              && State() == Popped(old(State()))
              else r == None && State() == old(State())
    {
      if nextSequence == None || sequenceExhausted || pending == map[] {
        return None;
      }
      var first := First(pending);
      if first != nextSequence.value {
        return None;
      }
      r := Some(pending[first]);
      pending := pending - {first};
      AdvancePast(first);
    }
  }

  // ---------- the buffer on its own ----------

  /** Every stored entry is at or ahead of the next expected sequence. */
  ghost predicate Ahead<T>(b: Buffer<T>) {
    && (b.exhausted ==> b.next == None)
    && (forall k :: k in b.pending ==> b.next.Some? && b.next.value <= k)
  }

  /** The entry of k lies behind the next expected sequence, or the range has ended. */
  ghost predicate Stranded<T>(b: Buffer<T>, k: Uint64) {
    k in b.pending && (b.exhausted || (b.next.Some? && b.next.value > k))
  }

  datatype Operation<T> = Pushing(sequence: Uint64, value: T) | Popping

  ghost function Operated<T>(b: Buffer<T>, limits: Limits, op: Operation<T>): Buffer<T> {
    match op
    case Pushing(sequence, value) => Pushed(b, limits, sequence, value).0
    case Popping => if Due(b) then Popped(b) else b
  }

  ghost function OperatedAll<T>(b: Buffer<T>, limits: Limits, ops: seq<Operation<T>>): Buffer<T>
    decreases |ops|
  {
    if ops == [] then b else OperatedAll(Operated(b, limits, ops[0]), limits, ops[1..])
  }

  /** How many entries the pops among these operations release. */
  ghost function ReleasedBy<T>(b: Buffer<T>, limits: Limits, ops: seq<Operation<T>>): nat
    decreases |ops|
  {
    if ops == [] then 0
    else (if ops[0].Popping? && Due(b) then 1 else 0) + ReleasedBy(Operated(b, limits, ops[0]), limits, ops[1..])
  }

  /** The push of the next expected sequence while an entry for it is still stored. */
  predicate StepsPast<T>(b: Buffer<T>, op: Operation<T>) {
    op.Pushing? && b.next == Some(op.sequence) && !b.exhausted && op.sequence in b.pending
  }

  ghost predicate EverStepsPast<T>(b: Buffer<T>, limits: Limits, ops: seq<Operation<T>>)
    decreases |ops|
  {
    ops != [] && (StepsPast(b, ops[0]) || EverStepsPast(Operated(b, limits, ops[0]), limits, ops[1..]))
  }

  /** An operation leaves an entry behind exactly when it pushes the next sequence over a stored one. */
  lemma {:induction false} AheadIffNotSteppedPast<T>(b: Buffer<T>, limits: Limits, op: Operation<T>)
    requires Ahead(b)
    ensures Ahead(Operated(b, limits, op)) <==> !StepsPast(b, op)
    ensures StepsPast(b, op) ==> Stranded(Operated(b, limits, op), op.sequence)
  {
    if op.Pushing? && b.next == Some(op.sequence) && op.sequence in b.pending {
      assert op.sequence in Operated(b, limits, op).pending;
    }
  }

  lemma StrandedNotAhead<T>(b: Buffer<T>, k: Uint64)
    requires Stranded(b, k)
    ensures k in b.pending && !Ahead(b) && !Due(b)
  {
  }

  lemma {:induction false} StrandedStays<T>(b: Buffer<T>, limits: Limits, op: Operation<T>, k: Uint64)
    requires Stranded(b, k)
    ensures Stranded(Operated(b, limits, op), k) && Operated(b, limits, op).pending[k] == b.pending[k]
  {
    StrandedNotAhead(b, k);
  }

  /** A stranded entry stays where it is for good, and from then on no pop releases anything. */
  lemma {:induction false} StrandedForever<T>(b: Buffer<T>, limits: Limits, ops: seq<Operation<T>>, k: Uint64)
    requires Stranded(b, k)
    ensures var c := OperatedAll(b, limits, ops);
            Stranded(c, k) && c.pending[k] == b.pending[k] && !Due(c)
    ensures ReleasedBy(b, limits, ops) == 0
    decreases |ops|
  {
    hide Operated, Due, Stranded;
    StrandedNotAhead(b, k);
    if ops != [] {
      StrandedStays(b, limits, ops[0], k);
      StrandedForever(Operated(b, limits, ops[0]), limits, ops[1..], k);
    }
  }

  /** Over any pushes and pops, entries stay at or ahead of the next sequence exactly when none is ever stepped past. */
  lemma {:induction false} AheadIffNeverSteppedPast<T>(b: Buffer<T>, limits: Limits, ops: seq<Operation<T>>)
    requires Ahead(b)
    ensures Ahead(OperatedAll(b, limits, ops)) <==> !EverStepsPast(b, limits, ops)
    decreases |ops|
  {
    hide Operated, Ahead, Stranded;
    if ops != [] {
      var c := Operated(b, limits, ops[0]);
      AheadIffNotSteppedPast(b, limits, ops[0]);
      if StepsPast(b, ops[0]) {
        StrandedForever(c, limits, ops[1..], ops[0].sequence);
        StrandedNotAhead(OperatedAll(c, limits, ops[1..]), ops[0].sequence);
      } else {
        AheadIffNeverSteppedPast(c, limits, ops[1..]);
      }
    }
  }

  /**
   And it does happen: with no pop in between, the third push of this run strands the entry that the
   first one stored.
   */
  lemma UndrainedPushStepsPast<T>(v: T, limits: Limits)
    requires 0 < limits.maximumPending && 0 < limits.maximumGap
    ensures var empty: Buffer<T> := Buffer(Some(5), map[], false);
            var b := Pushed(empty, limits, 6, v).0;
            var c := Pushed(b, limits, 5, v).0;
            var d := Pushed(c, limits, 6, v).0;
            StepsPast(c, Pushing(6, v)) && d == Buffer(Some(7), map[6 := v], false) && Stranded(d, 6)
  {
  }
}
