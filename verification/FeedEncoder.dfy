/** From engine events to published datagrams. */
module FeedEncoders {
  import opened Domain
  import opened Codec

  /** The publisher's position: the next sequence number, and whether the last one has been used. */
  datatype Feed = Feed(next: Uint64, exhausted: bool)

  datatype Datagram = Datagram(sequence: Uint64, bytes: seq<Byte>)

  datatype FeedError = SequenceExhausted | InvalidUpdate(reason: EncodeError)

  datatype FeedResult = NotPublished | Published(datagram: Datagram) | Failed(error: FeedError)

  /** The engine's event in the protocol's terms. */
  function ToBookUpdate(e: Event): BookUpdate
    requires e.BookUpdated?
  {
    BookUpdate(e.instrument, e.direction, if e.bestPrice.Some? then Some(e.bestPrice.value) else None, e.totalSize)
  }

  function FeedStep(f: Feed, e: Event): (Feed, FeedResult) {
    if !e.BookUpdated? then (f, NotPublished)
    else if f.exhausted then (f, Failed(SequenceExhausted))
    else
      var p := Packet(f.next, ToBookUpdate(e));
      match EncodeFault(p)
      case Some(reason) => (f, Failed(InvalidUpdate(reason)))
      case None =>
        (if f.next == WORD - 1 then f.(exhausted := true) else f.(next := f.next + 1),
         Published(Datagram(f.next, Encoded(p))))
  }

  class FeedEncoder {
    var nextSequence: Uint64
    var sequenceExhausted: bool

    constructor (firstSequence: Uint64)
      requires firstSequence != 0
      ensures State() == Feed(firstSequence, false)
    {
      nextSequence, sequenceExhausted := firstSequence, false;
    }

    /** The public way in: a first sequence of zero is refused. */
    static method Create(firstSequence: Uint64) returns (r: Result<FeedEncoder, EncodeError>)
      ensures firstSequence == 0 ==> r == Err(ZeroSequence)
      ensures firstSequence != 0 ==> r.Ok? && fresh(r.value) && r.value.State() == Feed(firstSequence, false)
    {
      if firstSequence == 0 {
        return Err(ZeroSequence);
      }
      var encoder := new FeedEncoder(firstSequence);
      r := Ok(encoder);
    }

    function State(): Feed
      reads this
    {
      Feed(nextSequence, sequenceExhausted)
    }

    method Encode(e: Event) returns (r: FeedResult)
      modifies this
      ensures (State(), r) == FeedStep(old(State()), e)
    {
      if !e.BookUpdated? {
        return NotPublished;
      }
      if sequenceExhausted {
        return Failed(SequenceExhausted);
      }
      var sequence := nextSequence;
      var encoded := Codec.Encode(Packet(sequence, ToBookUpdate(e)));
      match encoded {
        case Err(reason) =>
          return Failed(InvalidUpdate(reason));
        case Ok(bytes) =>
          if nextSequence == 0xffff_ffff_ffff_ffff {
            sequenceExhausted := true;
          } else {
            nextSequence := nextSequence + 1;
          }
          return Published(Datagram(sequence, bytes[..]));
      }
    }
  }

  // ---------- a stream of events ----------

  function FeedRun(f: Feed, events: seq<Event>): Feed
    decreases |events|
  {
    if events == [] then f else FeedRun(FeedStep(f, events[0]).0, events[1..])
  }

  /** The datagrams published for a stream of events. */
  function Publish(f: Feed, events: seq<Event>): seq<Datagram>
    decreases |events|
  {
    if events == [] then []
    else
      var (f', r) := FeedStep(f, events[0]);
      (if r.Published? then [r.datagram] else []) + Publish(f', events[1..])
  }

  /** The updates among a stream of events. */
  function Updates(events: seq<Event>): seq<BookUpdate> {
    if events == [] then []
    else (if events[0].BookUpdated? then [ToBookUpdate(events[0])] else []) + Updates(events[1..])
  }

  lemma {:induction false} UpdatesConcat(a: seq<Event>, b: seq<Event>)
    ensures Updates(a + b) == Updates(a) + Updates(b)
  {
    if a == [] {
      assert a + b == b;
    } else {
      assert (a + b)[1..] == a[1..] + b;
      UpdatesConcat(a[1..], b);
      var head := if a[0].BookUpdated? then [ToBookUpdate(a[0])] else [];
      assert Updates(a + b) == head + (Updates(a[1..]) + Updates(b));
      assert Updates(a) == head + Updates(a[1..]);
    }
  }

  /** An update the protocol can carry. */
  predicate Canonical(u: BookUpdate) {
    u.instrument != 0 && u.bestPrice != Some(0) && (u.bestPrice.Some? <==> u.aggregateSize > 0)
  }

  lemma CanonicalEncodes(sequence: Uint64, u: BookUpdate)
    requires sequence != 0
    ensures Canonical(u) <==> EncodeFault(Packet(sequence, u)) == None
  {
  }

  /** Packets with consecutive sequence numbers for consecutive updates. */
  function Numbered(next: nat, updates: seq<BookUpdate>): (packets: seq<Packet>)
    requires next + |updates| <= WORD
    ensures |packets| == |updates|
    ensures forall i :: 0 <= i < |updates| ==> packets[i] == Packet(next + i, updates[i])
    decreases |updates|
  {
    if updates == [] then [] else [Packet(next, updates[0])] + Numbered(next + 1, updates[1..])
  }

  /** The datagrams that carry a list of packets. */
  function Datagrams(packets: seq<Packet>): (ds: seq<Datagram>)
    ensures |ds| == |packets|
    ensures forall i :: 0 <= i < |packets| ==> ds[i] == Datagram(packets[i].sequence, Encoded(packets[i]))
  {
    if packets == [] then []
    else [Datagram(packets[0].sequence, Encoded(packets[0]))] + Datagrams(packets[1..])
  }

  predicate AllCanonical(updates: seq<BookUpdate>) {
    forall i :: 0 <= i < |updates| ==> Canonical(updates[i])
  }

  /** The publisher's position after n more packets. */
  function After(f: Feed, n: nat): Feed
    requires f.next + n <= WORD
  {
    if n > 0 && f.next + n == WORD then Feed(WORD - 1, true) else Feed(f.next + n, f.exhausted)
  }

  /** The updates that the protocol can carry. */
  function CanonicalOnly(updates: seq<BookUpdate>): seq<BookUpdate> {
    if updates == [] then []
    else (if Canonical(updates[0]) then [updates[0]] else []) + CanonicalOnly(updates[1..])
  }

  /** How many of a stream's canonical updates find a sequence number. */
  function Room(f: Feed, events: seq<Event>): (n: nat)
    ensures n <= |CanonicalOnly(Updates(events))| && f.next + n <= WORD
  {
    Min(|CanonicalOnly(Updates(events))|, WORD - f.next)
  }

  /**
   Whatever the events are, what is published is exactly their canonical updates, in order,
   numbered consecutively and cut off after 2^64 - 1; refused updates and other events
   consume no number.
   */
  lemma {:induction false} PublishesCanonical(f: Feed, events: seq<Event>)
    requires 0 < f.next && !f.exhausted
    ensures var c := CanonicalOnly(Updates(events));
            Publish(f, events) == Datagrams(Numbered(f.next, c[..Room(f, events)]))
    ensures FeedRun(f, events) == After(f, Room(f, events))
    decreases |events|
  {
    hide Encoded, EncodeFault, Canonical, FeedStep, Datagrams, Numbered;
    if events == [] {
      NumberedNone(f.next);
    } else {
      var rest := events[1..];
      CanonicalStep(events);
      if !events[0].BookUpdated? {
        NotAnUpdate(f, events[0]);
        PublishesCanonical(f, rest);
      } else if !Canonical(ToBookUpdate(events[0])) {
        RefusedUpdate(f, events[0]);
        PublishesCanonical(f, rest);
      } else {
        PublishStep(f, events[0]);
        PublishesFirst(f, events);
      }
    }
  }

  /** The case of a first event that is published. */
  lemma {:induction false} PublishesFirst(f: Feed, events: seq<Event>)
    requires 0 < f.next && !f.exhausted
    requires events != [] && events[0].BookUpdated? && Canonical(ToBookUpdate(events[0]))
    ensures var c := CanonicalOnly(Updates(events));
            Publish(f, events) == Datagrams(Numbered(f.next, c[..Room(f, events)]))
    ensures FeedRun(f, events) == After(f, Room(f, events))
    decreases |events|, 0
  {
    hide Encoded, EncodeFault, Canonical, FeedStep, Datagrams, Numbered, CanonicalOnly, Updates;
    var u, rest := ToBookUpdate(events[0]), events[1..];
    var c, n := CanonicalOnly(Updates(events)), Room(f, events);
    var behind := CanonicalOnly(Updates(rest));
    CanonicalStep(events);
    PublishStep(f, events[0]);
    assert c == [u] + behind && 0 < n;
    assert c[..n][0] == u && c[..n][1..] == behind[..n - 1];
    NumberedStep(f.next, c[..n]);
    if f.next == WORD - 1 {
      ExhaustedIsSilent(Feed(WORD - 1, true), rest);
      NumberedNone(WORD);
    } else {
      PublishesCanonical(Feed(f.next + 1, false), rest);
    }
  }

  lemma CanonicalStep(events: seq<Event>)
    requires events != []
    ensures CanonicalOnly(Updates(events))
         == (if events[0].BookUpdated? && Canonical(ToBookUpdate(events[0])) then [ToBookUpdate(events[0])] else [])
            + CanonicalOnly(Updates(events[1..]))
  {
    if events[0].BookUpdated? {
      assert Updates(events)[1..] == Updates(events[1..]);
    } else {
      assert Updates(events) == Updates(events[1..]);
    }
  }

  lemma {:induction false} AllCanonicalOnly(updates: seq<BookUpdate>)
    requires AllCanonical(updates)
    ensures CanonicalOnly(updates) == updates
  {
    if updates != [] {
      assert Canonical(updates[0]);
      AllCanonicalOnly(updates[1..]);
    }
  }

  /** Canonical updates are all published, up to and including 2^64 - 1. */
  lemma {:induction false} PublishesEveryUpdate(f: Feed, events: seq<Event>)
    requires 0 < f.next && !f.exhausted && AllCanonical(Updates(events)) && f.next + |Updates(events)| <= WORD
    ensures Publish(f, events) == Datagrams(Numbered(f.next, Updates(events)))
    ensures FeedRun(f, events) == After(f, |Updates(events)|)
  {
    AllCanonicalOnly(Updates(events));
    PublishesCanonical(f, events);
    assert Updates(events)[..|Updates(events)|] == Updates(events);
  }

  lemma NotAnUpdate(f: Feed, e: Event)
    requires !e.BookUpdated?
    ensures FeedStep(f, e) == (f, NotPublished)
  {
  }

  lemma RefusedUpdate(f: Feed, e: Event)
    requires 0 < f.next && !f.exhausted && e.BookUpdated? && !Canonical(ToBookUpdate(e))
    ensures FeedStep(f, e).0 == f && FeedStep(f, e).1.Failed?
  {
    CanonicalEncodes(f.next, ToBookUpdate(e));
  }

  lemma PublishStep(f: Feed, e: Event)
    requires 0 < f.next && !f.exhausted && e.BookUpdated? && Canonical(ToBookUpdate(e))
    ensures FeedStep(f, e) == (if f.next == WORD - 1 then Feed(WORD - 1, true) else Feed(f.next + 1, false),
                               Published(Datagram(f.next, Encoded(Packet(f.next, ToBookUpdate(e))))))
  {
    CanonicalEncodes(f.next, ToBookUpdate(e));
  }

  lemma NumberedNone(next: nat)
    requires next <= WORD
    ensures Datagrams(Numbered(next, [])) == []
  {
  }

  lemma NumberedStep(next: nat, updates: seq<BookUpdate>)
    requires updates != [] && next + |updates| <= WORD
    ensures Datagrams(Numbered(next, updates))
         == [Datagram(next, Encoded(Packet(next, updates[0])))] + Datagrams(Numbered(next + 1, updates[1..]))
  {
    assert Numbered(next, updates)[1..] == Numbered(next + 1, updates[1..]);
  }

  /** Once exhausted, a publisher publishes nothing more. */
  lemma {:induction false} ExhaustedIsSilent(f: Feed, events: seq<Event>)
    requires f.exhausted
    ensures Publish(f, events) == [] && FeedRun(f, events) == f
    decreases |events|
  {
    if events != [] {
      ExhaustedIsSilent(f, events[1..]);
    }
  }

  // ---------- the answer to each event ----------

  /** What the publisher answers to e after these events. */
  function FeedAnswer(f: Feed, events: seq<Event>, e: Event): FeedResult {
    FeedStep(FeedRun(f, events), e).1
  }

  /** The event is a canonical book update: its own fields pair a positive price with a positive size. */
  predicate Sendable(e: Event) {
    e.BookUpdated? && e.instrument > 0 && (e.bestPrice.Some? <==> e.totalSize > 0)
  }

  lemma SendableIffCanonical(e: Event)
    requires e.BookUpdated?
    ensures Sendable(e) <==> Canonical(ToBookUpdate(e))
  {
  }

  /**
   The answer to any event after any others, for a publisher that began at `first`: events
   that are no book update are skipped; with the range used up every update fails for
   that; an update that cannot be carried fails for its own first reason; any other is
   published under the next number, in bytes that decode to exactly what the event says.
   */
  lemma {:induction false} FeedAnswersTell(first: Uint64, events: seq<Event>, e: Event)
    requires 0 < first
    ensures var answer, used := FeedAnswer(Feed(first, false), events, e), Room(Feed(first, false), events);
            && (answer == NotPublished <==> !e.BookUpdated?)
            && (answer == Failed(SequenceExhausted) <==> e.BookUpdated? && first + used == WORD)
            && (answer == Failed(InvalidUpdate(ZeroInstrument)) <==>
                  e.BookUpdated? && first + used < WORD && e.instrument == 0)
            && (answer == Failed(InvalidUpdate(UnpairedSize)) <==>
                  && e.BookUpdated? && first + used < WORD && e.instrument > 0
                  && (e.bestPrice.Some? <==> e.totalSize == 0))
            && (answer.Published? <==> first + used < WORD && Sendable(e))
            && (answer.Published? ==>
                  && answer.datagram.sequence == first + used
                  && Decode(answer.datagram.bytes) == Ok(Packet(first + used,
                       BookUpdate(e.instrument, e.direction, Raw(e.bestPrice), e.totalSize))))
  {
    hide Encoded, Decode, FeedRun, Room;
    var f := Feed(first, false);
    PublishesCanonical(f, events);
    if e.BookUpdated? {
      SendableIffCanonical(e);
      if first + Room(f, events) < WORD {
        CanonicalEncodes(first + Room(f, events), ToBookUpdate(e));
        if Sendable(e) {
          DecodeEncoded(Packet(first + Room(f, events), ToBookUpdate(e)));
        }
      }
    }
  }

  function Raw(p: Option<Price>): Option<Uint64> {
    match p
    case None => None
    case Some(value) => Some(value)
  }
}
