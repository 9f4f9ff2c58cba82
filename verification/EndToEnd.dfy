/**
 From commands to a subscriber: the engine's updates are published, cross a network that
 may lose, repeat, reorder and corrupt datagrams, are put back in order, and are folded
 into a view that then shows what the engine's own snapshot shows.
 */
module EndToEnd {
  import opened Domain
  import P = PriceTime
  import opened MatchingSpec
  import opened MatchingInvariant
  import opened Codec
  import opened FeedEncoders
  import opened SequencedBuffers
  import opened Delivery
  import opened Completeness
  import V = Views
  import opened TopUpdates
  import opened PublishBound

  // ---------- the top of a book, as the engine's own snapshot tells it ----------

  function FirstLevel(levels: seq<LevelView>): Option<V.Level> {
    if levels == [] then None else Some(V.Level(levels[0].price, levels[0].totalSize))
  }

  /** The tops in the engine's reply to a snapshot command of depth 1. */
  function SnapshotTops(st: State, s: Uint32): Tops {
    match Step(st, Snapshot(s, 1)).response
    case SnapshotReply(Some(b)) => Tops(FirstLevel(b.bids), FirstLevel(b.asks))
    case _ => Tops(None, None)
  }

  /** Depth 1 of a snapshot is the top of book that update events are made from. */
  lemma SnapshotTopsAreTops(st: State, s: Uint32)
    ensures SnapshotTops(st, s) == TopsOf(st, s)
  {
    var b := BookOf(st.books, s);
    assert FirstLevel(Take(P.Levels(b.bids), 1)) == LevelOf(P.Top(b.bids));
    assert FirstLevel(Take(P.Levels(b.asks), 1)) == LevelOf(P.Top(b.asks));
  }

  // ---------- what the network may do ----------

  /** Whatever decodes was published; anything else about the arrivals is left open. */
  ghost predicate Carried(arrivals: seq<seq<Byte>>, published: seq<Datagram>) {
    forall i :: 0 <= i < |arrivals| && Decode(arrivals[i]).Ok? ==>
      exists j :: 0 <= j < |published| && published[j].bytes == arrivals[i]
  }

  /** The packets the receiver hands to the processor: malformed datagrams are skipped. */
  function Received(arrivals: seq<seq<Byte>>): seq<Packet> {
    if arrivals == [] then []
    else
      var rest := Received(arrivals[1..]);
      match Decode(arrivals[0])
      case Ok(p) => [p] + rest
      case Err(_) => rest
  }

  /** The packet is the published one of its sequence number. */
  predicate Genuine(p: Packet, first: nat, updates: seq<BookUpdate>) {
    first <= p.sequence < first + |updates| && p.update == updates[p.sequence - first]
  }

  lemma {:induction false} PublishedDecodes(bytes: seq<Byte>, first: Uint64, updates: seq<BookUpdate>, j: nat)
    requires 0 < first && AllCanonical(updates) && first + |updates| <= WORD && j < |updates|
    requires Datagrams(Numbered(first, updates))[j].bytes == bytes
    ensures Decode(bytes).Ok? && Genuine(Decode(bytes).value, first, updates)
  {
    hide Decode, Encoded, EncodeFault, Canonical, Datagrams, Numbered;
    var p := Numbered(first, updates)[j];
    assert p == Packet(first + j, updates[j]);
    CanonicalEncodes(first + j, updates[j]);
    DecodeEncoded(p);
  }

  lemma {:induction false} ReceivedGenuine(arrivals: seq<seq<Byte>>, first: Uint64, updates: seq<BookUpdate>)
    requires 0 < first && AllCanonical(updates) && first + |updates| <= WORD
    requires Carried(arrivals, Datagrams(Numbered(first, updates)))
    ensures forall p :: p in Received(arrivals) ==> Genuine(p, first, updates)
  {
    hide Decode, AllCanonical, Genuine, Datagrams, Numbered;
    if arrivals != [] {
      var published := Datagrams(Numbered(first, updates));
      CarriedTail(arrivals, published);
      ReceivedGenuine(arrivals[1..], first, updates);
      if Decode(arrivals[0]).Ok? {
        var j :| 0 <= j < |published| && published[j].bytes == arrivals[0];
        PublishedDecodes(arrivals[0], first, updates, j);
      }
    }
  }

  lemma {:induction false} CarriedTail(arrivals: seq<seq<Byte>>, published: seq<Datagram>)
    requires arrivals != [] && Carried(arrivals, published)
    ensures Carried(arrivals[1..], published)
    ensures Decode(arrivals[0]).Ok? ==> exists j :: 0 <= j < |published| && published[j].bytes == arrivals[0]
  {
    forall i | 0 <= i < |arrivals[1..]| && Decode(arrivals[1..][i]).Ok?
      ensures exists j :: 0 <= j < |published| && published[j].bytes == arrivals[1..][i]
    {
      assert arrivals[i + 1] == arrivals[1..][i];
    }
  }

  // ---------- what the processor delivers of it ----------

  lemma {:induction false} AcceptedArrived(arrivals: seq<Packet>, results: seq<SequenceResult>)
    requires |arrivals| == |results|
    ensures forall p :: p in Accepted(arrivals, results) ==> p in arrivals
    decreases |arrivals|
  {
    if arrivals != [] {
      var n := |arrivals| - 1;
      AcceptedArrived(arrivals[..n], results[..n]);
    }
  }

  /** What is delivered is a stretch of the published stream, packet for packet. */
  lemma {:induction false} DeliversPublished(first: Option<Uint64>, limits: Limits, arrivals: seq<Packet>,
                                             from: nat, updates: seq<BookUpdate>)
    requires forall p :: p in arrivals ==> Genuine(p, from, updates)
    requires from + |updates| <= WORD
    ensures var d, lo := Run(first, limits, arrivals).delivered, Start(first, arrivals);
            d != [] ==>
              && from <= lo && lo + |d| <= from + |updates|
              && d == Numbered(lo, updates[lo - from..lo - from + |d|])
  {
    hide Genuine, Settled, Accepted, Run, Rejections, DistinctSequences, Kept, Numbered;
    var t := Run(first, limits, arrivals);
    var d, lo := t.delivered, Start(first, arrivals);
    DeliversInOrder(first, limits, arrivals);
    ExactlyOnce(first, limits, arrivals);
    AcceptedArrived(arrivals, t.results);
    if d != [] {
      forall i | 0 <= i < |d|
        ensures Genuine(d[i], from, updates) && d[i].sequence == lo + i
      {
        assert d[i] in d;
      }
      StretchOf(d, lo, from, updates);
    }
  }

  lemma {:induction false} StretchOf(d: seq<Packet>, lo: nat, from: nat, updates: seq<BookUpdate>)
    requires d != [] && from + |updates| <= WORD
    requires forall i :: 0 <= i < |d| ==> Genuine(d[i], from, updates) && d[i].sequence == lo + i
    ensures from <= lo && lo + |d| <= from + |updates|
    ensures d == Numbered(lo, updates[lo - from..lo - from + |d|])
  {
    hide Genuine;
    GenuineIs(d[0], from, updates);
    GenuineIs(d[|d| - 1], from, updates);
    var stretch := updates[lo - from..lo - from + |d|];
    forall i | 0 <= i < |d|
      ensures d[i] == Packet(lo + i, stretch[i])
    {
      GenuineIs(d[i], from, updates);
    }
    assert d == Numbered(lo, stretch);
  }

  lemma GenuineIs(p: Packet, from: nat, updates: seq<BookUpdate>)
    requires Genuine(p, from, updates)
    ensures from <= p.sequence < from + |updates| && p == Packet(p.sequence, updates[p.sequence - from])
  {
  }

  // ---------- what the view makes of it ----------

  /** A subscriber asking the view for s gets these tops. */
  ghost predicate Shows(v: V.View, s: Uint32, tops: Tops) {
    && V.Got(v, s).Some?
    && V.Got(v, s).value.bestBid == tops.bid && V.Got(v, s).value.bestAsk == tops.ask
  }

  /** A view whose book has seen everything before `next` folds the packets from there exactly like their updates. */
  lemma {:induction false} FoldsUpdates(v: V.View, s: Uint32, tops: Tops, next: nat, updates: seq<BookUpdate>)
    requires Shows(v, s, tops) && v.books[s].lastSequence < next && next + |updates| <= WORD
    ensures Shows(V.ApplyAll(v, Numbered(next, updates)), s, ToldAll(tops, s, updates))
    decreases |updates|
  {
    if updates != [] {
      var p := Packet(next, updates[0]);
      assert Numbered(next, updates)[0] == p && Numbered(next, updates)[1..] == Numbered(next + 1, updates[1..]);
      FoldsUpdates(V.Applied(v, p), s, Told(tops, s, updates[0]), next + 1, updates[1..]);
    }
  }

  lemma {:induction false} SkipsSeen(v: V.View, s: Uint32, next: nat, updates: seq<BookUpdate>)
    requires s in v.books && next + |updates| <= v.books[s].lastSequence + 1
    ensures V.Agree(v, V.ApplyAll(v, Numbered(next, updates)), s)
    decreases |updates|
  {
    if updates != [] {
      var p := Packet(next, updates[0]);
      assert Numbered(next, updates)[0] == p && Numbered(next, updates)[1..] == Numbered(next + 1, updates[1..]);
      assert V.Agree(v, V.Applied(v, p), s);
      SkipsSeen(V.Applied(v, p), s, next + 1, updates[1..]);
    }
  }

  lemma {:induction false} NumberedConcat(next: nat, a: seq<BookUpdate>, b: seq<BookUpdate>)
    requires next + |a| + |b| <= WORD
    ensures Numbered(next, a + b) == Numbered(next, a) + Numbered(next + |a|, b)
  {
    var whole, parts := Numbered(next, a + b), Numbered(next, a) + Numbered(next + |a|, b);
    assert forall i :: 0 <= i < |whole| ==> whole[i] == parts[i];
  }

  /** Old packets first, then new ones: only the new ones move the book. */
  lemma {:induction false} FoldsFrom(v: V.View, s: Uint32, tops: Tops, lo: nat, seen: seq<BookUpdate>,
                                     news: seq<BookUpdate>)
    requires Shows(v, s, tops) && lo + |seen| == v.books[s].lastSequence + 1 && lo + |seen| + |news| <= WORD
    ensures Shows(V.ApplyAll(v, Numbered(lo, seen + news)), s, ToldAll(tops, s, news))
  {
    NumberedConcat(lo, seen, news);
    V.ApplyAllConcat(v, Numbered(lo, seen), Numbered(lo + |seen|, news));
    SkipsSeen(v, s, lo, seen);
    FoldsUpdates(V.ApplyAll(v, Numbered(lo, seen)), s, tops, lo + |seen|, news);
  }

  // ---------- the whole path ----------

  /** Everything the processor hands to its consumer for these arrivals. */
  ghost function Delivered(first: Option<Uint64>, limits: Limits, arrivals: seq<seq<Byte>>): seq<Packet> {
    Run(first, limits, Received(arrivals)).delivered
  }

  /** How many updates a run publishes. */
  function Count(commands: seq<Command>): nat {
    |Updates(EventsOf(INITIAL, commands))|
  }

  /**
   The view's book was established from the engine's snapshot after `before`, at the last sequence
   published by then.
   */
  ghost predicate EstablishedAfter(v: V.View, s: Uint32, before: seq<Command>, from: Uint64) {
    var tops := SnapshotTops(RunState(INITIAL, before), s);
    Shows(v, s, tops) && v.books[s].lastSequence == from + Count(before) - 1
  }

  /**
   The updates of this run could be published from sequence `from` on, and the arrivals are what the
   network made of them.
   */
  ghost predicate Carries(arrivals: seq<seq<Byte>>, commands: seq<Command>, from: Uint64) {
    && 0 < from && from + Count(commands) <= WORD && RunPublishable(INITIAL, commands)
    && Carried(arrivals, Publish(Feed(from, false), EventsOf(INITIAL, commands)))
  }

  /** The processor's first expected sequence is at most n; when none is configured, the first arrival's is. */
  ghost predicate StartsBy(first: Option<Uint64>, arrivals: seq<seq<Byte>>, n: nat) {
    Start(first, Received(arrivals)) <= n
  }

  /** Delivery stands just before sequence n. */
  ghost predicate Reaches(first: Option<Uint64>, limits: Limits, arrivals: seq<seq<Byte>>, n: nat) {
    Start(first, Received(arrivals)) + |Delivered(first, limits, arrivals)| == n
  }

  /**
   Bounded reordering of the packets among the arrivals, with room for it, and nothing in [first, n)
   lost for good.
   */
  ghost predicate Recovers(first: Uint64, limits: Limits, arrivals: seq<seq<Byte>>, n: nat) {
    && limits.maximumGap <= limits.maximumPending && BoundedReordering(first, limits, Received(arrivals))
    && (forall k: nat :: first <= k < n ==> k in Sequences(Received(arrivals)))
  }

  /** The updates of a longer run begin with those of a shorter one. */
  lemma {:induction false} UpdatesSplit(a: seq<Command>, b: seq<Command>)
    ensures Updates(EventsOf(INITIAL, a + b))
         == Updates(EventsOf(INITIAL, a)) + Updates(EventsOf(RunState(INITIAL, a), b))
    ensures RunState(INITIAL, a + b) == RunState(RunState(INITIAL, a), b)
  {
    RunConcat(INITIAL, a, b);
    UpdatesConcat(EventsOf(INITIAL, a), EventsOf(RunState(INITIAL, a), b));
  }

  /** Updates between two command boundaries take the tops at the first to the tops at the second. */
  lemma {:induction false} ToldBetween(before: seq<Command>, middle: seq<Command>, s: Uint32)
    ensures ToldAll(SnapshotTops(RunState(INITIAL, before), s), s, Updates(EventsOf(RunState(INITIAL, before), middle)))
         == SnapshotTops(RunState(INITIAL, before + middle), s)
  {
    hide Inv, TopsOf, SnapshotTops;
    var st := RunState(INITIAL, before);
    InitialInv();
    RunKeeps(INITIAL, before);
    RunTold(st, middle, s);
    UpdatesSplit(before, middle);
    SnapshotTopsAreTops(st, s);
    SnapshotTopsAreTops(RunState(INITIAL, before + middle), s);
  }

  /** The published stream, cut at the two boundaries, and what of it is delivered. */
  lemma {:induction false} PublishedSplit(before: seq<Command>, middle: seq<Command>, rest: seq<Command>,
                                          arrivals: seq<seq<Byte>>, from: Uint64, first: Option<Uint64>, limits: Limits)
    requires Carries(arrivals, before + middle + rest, from)
    ensures var a := Updates(EventsOf(INITIAL, before));
            var b := Updates(EventsOf(RunState(INITIAL, before), middle));
            var c := Updates(EventsOf(RunState(INITIAL, before + middle), rest));
            var d, lo := Delivered(first, limits, arrivals), Start(first, Received(arrivals));
            && |a| == Count(before) && |a| + |b| == Count(before + middle) && from + |a| + |b| + |c| <= WORD
            && (d != [] ==> from <= lo && lo + |d| <= from + |a + b + c|
                            && d == Numbered(lo, (a + b + c)[lo - from..lo - from + |d|]))
  {
    hide EventsOf, Updates, RunPublishable, Publish, Received, Carried, RunState, Numbered, Run, Genuine,
        AllCanonical, Datagrams;
    var commands := before + middle + rest;
    var updates := Updates(EventsOf(INITIAL, commands));
    InitialInv();
    RunCanonicalIff(INITIAL, commands);
    RunPublishes(commands, from);
    ReceivedGenuine(arrivals, from, updates);
    DeliversPublished(first, limits, Received(arrivals), from, updates);
    UpdatesSplit(before, middle);
    UpdatesSplit(before + middle, rest);
  }

  /**
   Whenever delivery stands at the boundary after `before + middle`, a view established
   after `before` shows exactly what the engine's snapshot of depth 1 showed there:
   for every run, every network behaviour, and a processor that started anywhere up to
   the sequence after the snapshot's.
   */
  lemma {:induction false} ViewFollowsEngine(before: seq<Command>, middle: seq<Command>, rest: seq<Command>,
                                             from: Uint64, arrivals: seq<seq<Byte>>,
                                             first: Option<Uint64>, limits: Limits, v: V.View, s: Uint32)
    requires Carries(arrivals, before + middle + rest, from) && EstablishedAfter(v, s, before, from)
    requires StartsBy(first, arrivals, from + Count(before))
    requires Reaches(first, limits, arrivals, from + Count(before + middle))
    ensures Shows(V.ApplyAll(v, Delivered(first, limits, arrivals)), s,
                  SnapshotTops(RunState(INITIAL, before + middle), s))
  {
    hide EventsOf, Updates, RunPublishable, Publish, Received, SnapshotTops, Carried, RunState, Numbered;
    var a := Updates(EventsOf(INITIAL, before));
    var b := Updates(EventsOf(RunState(INITIAL, before), middle));
    var c := Updates(EventsOf(RunState(INITIAL, before + middle), rest));
    PublishedSplit(before, middle, rest, arrivals, from, first, limits);
    ToldBetween(before, middle, s);
    StretchFolds(v, s, SnapshotTops(RunState(INITIAL, before), s), Start(first, Received(arrivals)), from, a, b, c,
                 Delivered(first, limits, arrivals));
  }

  lemma NothingApplied(v: V.View)
    ensures V.ApplyAll(v, []) == v
  {
  }

  /** Delivered: the published stream a + b + c from lo up to the end of b. */
  lemma {:induction false} StretchFolds(v: V.View, s: Uint32, tops: Tops, lo: nat, from: nat,
                                        a: seq<BookUpdate>, b: seq<BookUpdate>, c: seq<BookUpdate>, d: seq<Packet>)
    requires Shows(v, s, tops) && v.books[s].lastSequence + 1 == from + |a|
    requires 0 < from && from + |a| + |b| + |c| <= WORD
    requires lo <= from + |a| && lo + |d| == from + |a| + |b|
    requires d != [] ==> from <= lo && d == Numbered(lo, (a + b + c)[lo - from..lo - from + |d|])
    ensures Shows(V.ApplyAll(v, d), s, ToldAll(tops, s, b))
  {
    hide Shows, V.ApplyAll, Numbered;
    if d == [] {
      assert b == [];
      NothingApplied(v);
    } else {
      var seen := a[lo - from..];
      assert (a + b + c)[lo - from..lo - from + |d|] == seen + b;
      FoldsFrom(v, s, tops, lo, seen, b);
    }
  }

  /**
   And delivery does get there: once every published packet from the processor's first
   sequence on has arrived, with bounded reordering and any duplicates, the view shows
   the engine's final snapshot.
   */
  lemma {:induction false} ViewCatchesUp(before: seq<Command>, middle: seq<Command>,
                                         from: Uint64, arrivals: seq<seq<Byte>>,
                                         first: Uint64, limits: Limits, v: V.View, s: Uint32)
    requires Carries(arrivals, before + middle, from) && EstablishedAfter(v, s, before, from)
    requires first <= from + Count(before)
    requires Recovers(first, limits, arrivals, from + Count(before + middle))
    ensures Shows(V.ApplyAll(v, Delivered(Some(first), limits, arrivals)), s,
                  SnapshotTops(RunState(INITIAL, before + middle), s))
  {
    hide EventsOf, Updates, RunPublishable, Publish, Received, SnapshotTops, Carried, RunState, Shows,
        BoundedReordering;
    var packets := Received(arrivals);
    var updates := Updates(EventsOf(INITIAL, before + middle));
    InitialInv();
    RunCanonicalIff(INITIAL, before + middle);
    RunPublishes(before + middle, from);
    ReceivedGenuine(arrivals, from, updates);
    forall i | 0 <= i < |packets|
      ensures packets[i].sequence < from + Count(before + middle)
    {
      assert Genuine(packets[i], from, updates);
    }
    UpdatesSplit(before, middle);
    Complete(first, from + Count(before + middle) - first, limits, packets);
    assert before + middle + [] == before + middle;
    ViewFollowsEngine(before, middle, [], from, arrivals, Some(first), limits, v, s);
  }

  // ---------- under bounds on the commands alone ----------

  /** What a caller can see before giving the commands: sizes and updates that fit in 64 bits. */
  predicate WithinBounds(commands: seq<Command>, from: Uint64) {
    0 < from && from + 2 * |commands| <= WORD && Asked(commands) < WORD
  }

  lemma {:induction false} BoundsCarry(arrivals: seq<seq<Byte>>, commands: seq<Command>, from: Uint64)
    requires WithinBounds(commands, from) && Carried(arrivals, Publish(Feed(from, false), EventsOf(INITIAL, commands)))
    ensures Carries(arrivals, commands, from)
  {
    hide EventsOf, Updates, RunPublishable, Publish, Carried, Asked;
    InitialInv();
    UpdatesBound(INITIAL, commands);
    AskedPublishable(commands);
  }

  /** `ViewFollowsEngine` with nothing asked of the run but its sizes and length. */
  lemma {:induction false} BoundedViewFollowsEngine(before: seq<Command>, middle: seq<Command>, rest: seq<Command>,
                                                    from: Uint64, arrivals: seq<seq<Byte>>,
                                                    first: Option<Uint64>, limits: Limits, v: V.View, s: Uint32)
    requires WithinBounds(before + middle + rest, from)
    requires Carried(arrivals, Publish(Feed(from, false), EventsOf(INITIAL, before + middle + rest)))
    requires EstablishedAfter(v, s, before, from)
    requires StartsBy(first, arrivals, from + Count(before))
    requires Reaches(first, limits, arrivals, from + Count(before + middle))
    ensures Shows(V.ApplyAll(v, Delivered(first, limits, arrivals)), s,
                  SnapshotTops(RunState(INITIAL, before + middle), s))
  {
    hide Carries, WithinBounds, EstablishedAfter, StartsBy, Reaches, Shows, SnapshotTops;
    BoundsCarry(arrivals, before + middle + rest, from);
    ViewFollowsEngine(before, middle, rest, from, arrivals, first, limits, v, s);
  }

  /** `ViewCatchesUp` likewise. */
  lemma {:induction false} BoundedViewCatchesUp(before: seq<Command>, middle: seq<Command>,
                                                from: Uint64, arrivals: seq<seq<Byte>>,
                                                first: Uint64, limits: Limits, v: V.View, s: Uint32)
    requires WithinBounds(before + middle, from)
    requires Carried(arrivals, Publish(Feed(from, false), EventsOf(INITIAL, before + middle)))
    requires EstablishedAfter(v, s, before, from)
    requires first <= from + Count(before)
    requires Recovers(first, limits, arrivals, from + Count(before + middle))
    ensures Shows(V.ApplyAll(v, Delivered(Some(first), limits, arrivals)), s,
                  SnapshotTops(RunState(INITIAL, before + middle), s))
  {
    hide Carries, WithinBounds, EstablishedAfter, Recovers, Shows, SnapshotTops;
    BoundsCarry(arrivals, before + middle, from);
    ViewCatchesUp(before, middle, from, arrivals, first, limits, v, s);
  }

  // ---------- a snapshot taken while delivery is under way ----------

  /** The snapshot a subscriber is given after `before`: the engine's tops, and the last sequence published by then. */
  function SnapshotAfter(before: seq<Command>, from: Uint64, s: Uint32): V.TopSnapshot
    requires 0 < from && from + Count(before) <= WORD
  {
    var tops := SnapshotTops(RunState(INITIAL, before), s);
    V.TopSnapshot(s, from + Count(before) - 1, tops.bid, tops.ask)
  }

  /** Whatever the view was, establishing that snapshot makes its book the engine's. */
  lemma {:induction false} SnapshotEstablishes(w: V.View, s: Uint32, before: seq<Command>, from: Uint64)
    requires 0 < from && from + Count(before) <= WORD
    ensures EstablishedAfter(V.Established(w, SnapshotAfter(before, from, s)), s, before, from)
  {
  }

  function SideOf(t: Tops, d: Side): Option<V.Level> {
    if d == Buy then t.bid else t.ask
  }

  /** Some of these updates is about this side of this book. */
  ghost predicate Touches(updates: seq<BookUpdate>, s: Uint32, d: Side) {
    exists i :: 0 <= i < |updates| && updates[i].instrument == s && updates[i].direction == d
  }

  lemma {:induction false} TouchesCons(updates: seq<BookUpdate>, s: Uint32, d: Side)
    requires updates != []
    ensures Touches(updates, s, d) <==>
            (updates[0].instrument == s && updates[0].direction == d) || Touches(updates[1..], s, d)
  {
    if Touches(updates[1..], s, d) {
      var i :| 0 <= i < |updates[1..]| && updates[1..][i].instrument == s && updates[1..][i].direction == d;
      assert updates[i + 1] == updates[1..][i];
    }
  }

  /** A side that is touched forgets where it started, and one that is not keeps it. */
  lemma {:induction false} TouchedForgets(t: Tops, t': Tops, s: Uint32, updates: seq<BookUpdate>, d: Side)
    requires Touches(updates, s, d) || SideOf(t, d) == SideOf(t', d)
    ensures SideOf(ToldAll(t, s, updates), d) == SideOf(ToldAll(t', s, updates), d)
    ensures !Touches(updates, s, d) ==> SideOf(ToldAll(t, s, updates), d) == SideOf(t, d)
    decreases |updates|
  {
    hide Touches;
    if updates != [] {
      TouchesCons(updates, s, d);
      TouchedForgets(Told(t, s, updates[0]), Told(t', s, updates[0]), s, updates[1..], d);
    } else {
      NothingTouches(s, d);
    }
  }

  lemma NothingTouches(s: Uint32, d: Side)
    ensures !Touches([], s, d)
  {
  }

  /** Missing the first n updates does no harm exactly when each side is touched later or ends where it began. */
  lemma {:induction false} MissedHarmlessIff(t: Tops, s: Uint32, updates: seq<BookUpdate>, n: nat)
    requires n <= |updates|
    ensures ToldAll(t, s, updates[n..]) == ToldAll(t, s, updates) <==> Harmless(t, s, updates, n)
  {
    hide Touches, Told, ToldAll;
    var kept := updates[n..];
    var partial, whole := ToldAll(t, s, kept), ToldAll(t, s, updates);
    assert updates == updates[..n] + kept;
    ToldConcat(t, s, updates[..n], kept);
    forall d: Side
      ensures SideOf(partial, d) == SideOf(whole, d) <==> Touches(kept, s, d) || SideOf(whole, d) == SideOf(t, d)
    {
      if Touches(kept, s, d) {
        TouchedForgets(t, ToldAll(t, s, updates[..n]), s, kept, d);
      } else {
        TouchedForgets(t, t, s, kept, d);
      }
    }
    SidesDecide(partial, whole);
  }

  lemma SidesDecide(t: Tops, t': Tops)
    ensures t == t' <==> forall d: Side :: SideOf(t, d) == SideOf(t', d)
  {
    assert SideOf(t, Buy) == t.bid && SideOf(t, Sell) == t.ask;
    assert SideOf(t', Buy) == t'.bid && SideOf(t', Sell) == t'.ask;
  }

  /** Each side of s is touched after the first n updates, or is in the end what it was at the start. */
  ghost predicate Harmless(t: Tops, s: Uint32, updates: seq<BookUpdate>, n: nat)
    requires n <= |updates|
  {
    forall d: Side :: Touches(updates[n..], s, d) || SideOf(ToldAll(t, s, updates), d) == SideOf(t, d)
  }

  lemma {:induction false} NumberedTail(next: nat, updates: seq<BookUpdate>, k: nat)
    requires next + |updates| <= WORD && k <= |updates|
    ensures Numbered(next, updates)[k..] == Numbered(next + k, updates[k..])
  {
    var tail, packets := Numbered(next, updates)[k..], Numbered(next + k, updates[k..]);
    assert forall i :: 0 <= i < |tail| ==> tail[i] == packets[i];
  }

  /** A book that stands before sequence a's end is fed the stream from `at` on: what was in between is missed. */
  lemma {:induction false} LateFolds(v: V.View, s: Uint32, tops: Tops, at: nat, from: nat,
                                     a: seq<BookUpdate>, b: seq<BookUpdate>, c: seq<BookUpdate>, d: seq<Packet>)
    requires Shows(v, s, tops) && v.books[s].lastSequence + 1 == from + |a|
    requires 0 < from && from + |a| + |b| + |c| <= WORD
    requires at + |d| == from + |a| + |b|
    requires d != [] ==> from <= at && d == Numbered(at, (a + b + c)[at - from..at - from + |d|])
    ensures var missed := if at <= from + |a| then 0 else at - from - |a|;
            missed <= |b| && Shows(V.ApplyAll(v, d), s, ToldAll(tops, s, b[missed..]))
  {
    hide Shows, V.ApplyAll, Numbered;
    if at <= from + |a| {
      assert b[0..] == b;
      StretchFolds(v, s, tops, at, from, a, b, c, d);
    } else {
      var missed := at - from - |a|;
      if d == [] {
        assert b[missed..] == [];
        NothingApplied(v);
      } else {
        assert (a + b + c)[at - from..at - from + |d|] == b[missed..];
        FoldsUpdates(v, s, tops, at, b[missed..]);
      }
    }
  }

  /** How many of the updates after the snapshot had already gone by when it was established. */
  function Missed(at: nat, reference: nat): nat {
    if at <= reference + 1 then 0 else at - (reference + 1)
  }

  /**
   A snapshot established after k of the packets have been delivered: if delivery then stood
   at most one past the snapshot's sequence the view is right at the boundary, for every
   run; further on it is right exactly when each side of the book is told again later, or
   is at the boundary what it was in the snapshot.
   */
  lemma {:induction false} MidDeliverySnapshot(before: seq<Command>, middle: seq<Command>, rest: seq<Command>,
                                               from: Uint64, arrivals: seq<seq<Byte>>,
                                               first: Option<Uint64>, limits: Limits, w: V.View, s: Uint32, k: nat)
    requires Carries(arrivals, before + middle + rest, from)
    requires Reaches(first, limits, arrivals, from + Count(before + middle))
    requires k <= |Delivered(first, limits, arrivals)|
    ensures from + Count(before) <= WORD
    ensures var d := Delivered(first, limits, arrivals);
            var snapshot := SnapshotAfter(before, from, s);
            var view := V.ApplyAll(V.Established(V.ApplyAll(w, d[..k]), snapshot), d[k..]);
            var missed := Missed(Start(first, Received(arrivals)) + k, snapshot.referenceSequence);
            var updates := Updates(EventsOf(RunState(INITIAL, before), middle));
            && missed <= |updates|
            && (Shows(view, s, SnapshotTops(RunState(INITIAL, before + middle), s)) <==>
                Harmless(SnapshotTops(RunState(INITIAL, before), s), s, updates, missed))
            && (missed == 0 ==> Shows(view, s, SnapshotTops(RunState(INITIAL, before + middle), s)))
  {
    hide EventsOf, Updates, RunPublishable, Publish, Received, SnapshotTops, Carried, RunState, Numbered, Harmless,
        Shows, Run;
    var d := Delivered(first, limits, arrivals);
    var a := Updates(EventsOf(INITIAL, before));
    var b := Updates(EventsOf(RunState(INITIAL, before), middle));
    var c := Updates(EventsOf(RunState(INITIAL, before + middle), rest));
    PublishedSplit(before, middle, rest, arrivals, from, first, limits);
    ToldBetween(before, middle, s);
    SnapshotEstablishes(V.ApplyAll(w, d[..k]), s, before, from);
    LateSnapshot(V.Established(V.ApplyAll(w, d[..k]), SnapshotAfter(before, from, s)), s,
                 SnapshotTops(RunState(INITIAL, before), s), Start(first, Received(arrivals)), from, a, b, c, d, k);
  }

  /** The same on values: a + b + c is published, d of it delivered, and the last |d| - k packets reach the view. */
  lemma {:induction false} LateSnapshot(v: V.View, s: Uint32, tops: Tops, lo: nat, from: nat,
                                        a: seq<BookUpdate>, b: seq<BookUpdate>, c: seq<BookUpdate>,
                                        d: seq<Packet>, k: nat)
    requires Shows(v, s, tops) && v.books[s].lastSequence + 1 == from + |a|
    requires 0 < from && from + |a| + |b| + |c| <= WORD
    requires lo + |d| == from + |a| + |b| && k <= |d|
    requires d != [] ==> from <= lo && d == Numbered(lo, (a + b + c)[lo - from..lo - from + |d|])
    ensures var missed := Missed(lo + k, from + |a| - 1);
            && missed <= |b|
            && (Shows(V.ApplyAll(v, d[k..]), s, ToldAll(tops, s, b)) <==> Harmless(tops, s, b, missed))
            && (missed == 0 ==> Shows(V.ApplyAll(v, d[k..]), s, ToldAll(tops, s, b)))
  {
    hide Shows, V.ApplyAll, Numbered, Harmless, ToldAll;
    if d[k..] != [] {
      var stretch := (a + b + c)[lo - from..lo - from + |d|];
      NumberedTail(lo, stretch, k);
      assert stretch[k..] == (a + b + c)[lo + k - from..lo + k - from + |d[k..]|];
    }
    LateFolds(v, s, tops, lo + k, from, a, b, c, d[k..]);
    var missed := Missed(lo + k, from + |a| - 1);
    MissedHarmlessIff(tops, s, b, missed);
    ShowsOne(V.ApplyAll(v, d[k..]), s, ToldAll(tops, s, b[missed..]), ToldAll(tops, s, b));
    assert missed == 0 ==> b[missed..] == b;
  }

  /** A view shows one pair of tops. */
  lemma ShowsOne(v: V.View, s: Uint32, t: Tops, t': Tops)
    requires Shows(v, s, t)
    ensures Shows(v, s, t') <==> t == t'
  {
  }

  // ---------- the plain case ----------

  function Bytes(datagrams: seq<Datagram>): (bytes: seq<seq<Byte>>)
    ensures |bytes| == |datagrams|
    ensures forall i :: 0 <= i < |bytes| ==> bytes[i] == datagrams[i].bytes
  {
    if datagrams == [] then [] else [datagrams[0].bytes] + Bytes(datagrams[1..])
  }

  /** Datagrams that arrive as they were sent are received as they were numbered. */
  lemma {:induction false} ReceivedAsSent(first: nat, updates: seq<BookUpdate>)
    requires 0 < first && AllCanonical(updates) && first + |updates| <= WORD
    ensures Received(Bytes(Datagrams(Numbered(first, updates)))) == Numbered(first, updates)
    decreases |updates|
  {
    hide Decode, Encoded, EncodeFault, Canonical;
    if updates != [] {
      var packets := Numbered(first, updates);
      assert packets[1..] == Numbered(first + 1, updates[1..]);
      CanonicalEncodes(first, updates[0]);
      DecodeEncoded(packets[0]);
      assert Bytes(Datagrams(packets))[1..] == Bytes(Datagrams(packets[1..]));
      ReceivedAsSent(first + 1, updates[1..]);
    }
  }

  lemma {:induction false} SequencesOfNumbered(first: nat, updates: seq<BookUpdate>, n: nat, k: nat)
    requires first + |updates| <= WORD && n <= |updates|
    ensures k in Sequences(Numbered(first, updates)[..n]) <==> first <= k < first + n
  {
    var packets := Numbered(first, updates)[..n];
    if first <= k < first + n {
      assert packets[k - first].sequence == k;
    }
  }

  /**
   A network that neither loses nor reorders meets the conditions on what is carried and
   reached whatever the limits, and those on recovery when there is room for a full gap.
   */
  lemma {:induction false} PlainNetwork(commands: seq<Command>, from: Uint64, limits: Limits)
    requires 0 < from && from + Count(commands) <= WORD && RunPublishable(INITIAL, commands)
    ensures var arrivals := Bytes(Publish(Feed(from, false), EventsOf(INITIAL, commands)));
            && Carries(arrivals, commands, from)
            && Reaches(Some(from), limits, arrivals, from + Count(commands))
            && (limits.maximumGap <= limits.maximumPending ==>
                  Recovers(from, limits, arrivals, from + Count(commands)))
  {
    hide EventsOf, Updates, Publish, Received, RunPublishable, Sequences, AllCanonical, Datagrams, Numbered, Run;
    var updates := Updates(EventsOf(INITIAL, commands));
    InitialInv();
    RunCanonicalIff(INITIAL, commands);
    RunPublishes(commands, from);
    ReceivedAsSent(from, updates);
    var packets := Numbered(from, updates);
    InOrderDelivers(from, limits, packets);
    InOrderRecovers(from, limits, updates);
  }

  lemma {:induction false} InOrderRecovers(from: Uint64, limits: Limits, updates: seq<BookUpdate>)
    requires from + |updates| <= WORD
    ensures var packets := Numbered(from, updates);
            && BoundedReordering(from, limits, packets)
            && (forall k: nat :: from <= k < from + |updates| ==> k in Sequences(packets))
  {
    hide Sequences, Numbered;
    var packets := Numbered(from, updates);
    forall i: nat, low: nat | i < |packets| && LowestMissing(from, Sequences(packets[..i]), low)
      ensures packets[i].sequence <= low + limits.maximumGap
    {
      SequencesOfNumbered(from, updates, i, low);
    }
    assert packets[..|packets|] == packets;
    forall k: nat | from <= k < from + |packets|
      ensures k in Sequences(packets)
    {
      SequencesOfNumbered(from, updates, |packets|, k);
    }
  }

  /** So over a plain network the view simply ends up showing the engine's final snapshot. */
  lemma {:induction false} PlainNetworkShows(before: seq<Command>, middle: seq<Command>, from: Uint64,
                                             limits: Limits, w: V.View, s: Uint32)
    requires 0 < from && from + Count(before + middle) <= WORD && RunPublishable(INITIAL, before + middle)
    ensures from + Count(before) <= WORD
    ensures var arrivals := Bytes(Publish(Feed(from, false), EventsOf(INITIAL, before + middle)));
            var view := V.Established(w, SnapshotAfter(before, from, s));
            Shows(V.ApplyAll(view, Delivered(Some(from), limits, arrivals)), s,
                  SnapshotTops(RunState(INITIAL, before + middle), s))
  {
    hide EventsOf, Updates, RunPublishable, Publish, Received, SnapshotTops, RunState, Shows, Carries, Reaches, Bytes;
    var arrivals := Bytes(Publish(Feed(from, false), EventsOf(INITIAL, before + middle)));
    UpdatesSplit(before, middle);
    PlainNetwork(before + middle, from, limits);
    SnapshotEstablishes(w, s, before, from);
    assert before + middle + [] == before + middle;
    ViewFollowsEngine(before, middle, [], from, arrivals, Some(from), limits,
                      V.Established(w, SnapshotAfter(before, from, s)), s);
  }
}
