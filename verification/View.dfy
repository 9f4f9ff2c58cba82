/** A subscriber's view of the top of each book: a snapshot brought up to date by later updates. */
module Views {
  import opened Domain
  import opened Codec

  datatype Level = Level(price: Uint64, aggregateSize: Uint64)

  datatype TopSnapshot = TopSnapshot(instrument: Uint32, referenceSequence: Uint64, bestBid: Option<Level>,
                                     bestAsk: Option<Level>)

  datatype ViewState = AwaitingSnapshot | Current | Stale

  datatype ViewBook = ViewBook(state: ViewState, lastSequence: Uint64, bestBid: Option<Level>, bestAsk: Option<Level>)

  datatype View = View(books: map<Uint32, ViewBook>, streamStale: bool)

  function LevelIn(u: BookUpdate): Option<Level> {
    if u.bestPrice.Some? then Some(Level(u.bestPrice.value, u.aggregateSize)) else None
  }

  function Established(v: View, s: TopSnapshot): View {
    v.(books := v.books[s.instrument := ViewBook(Current, s.referenceSequence, s.bestBid, s.bestAsk)])
  }

  function Invalidated(v: View): View {
    View(map s | s in v.books :: v.books[s].(state := Stale), true)
  }

  /** The update reaches a current book and is newer than what that book has seen. */
  predicate Applies(v: View, p: Packet) {
    var s := p.update.instrument;
    s in v.books && v.books[s].state == Current && v.books[s].lastSequence < p.sequence
  }

  function Applied(v: View, p: Packet): View {
    if !Applies(v, p) then v
    else
      var b := v.books[p.update.instrument];
      var level := LevelIn(p.update);
      var b' := if p.update.direction == Buy then b.(bestBid := level) else b.(bestAsk := level);
      v.(books := v.books[p.update.instrument := b'.(lastSequence := p.sequence)])
  }

  function StateOf(v: View, s: Uint32): ViewState {
    if s in v.books then v.books[s].state else if v.streamStale then Stale else AwaitingSnapshot
  }

  function Got(v: View, s: Uint32): Option<TopSnapshot> {
    if s !in v.books || v.books[s].state != Current then None
    else Some(TopSnapshot(s, v.books[s].lastSequence, v.books[s].bestBid, v.books[s].bestAsk))
  }

  class TopOfBookView {
    var books: map<Uint32, ViewBook>
    var streamStale: bool

    constructor ()
      ensures Value() == View(map[], false)
    {
      books, streamStale := map[], false;
    }

    function Value(): View
      reads this
    {
      View(books, streamStale)
    }

    method Establish(s: TopSnapshot)
      modifies this
      ensures Value() == Established(old(Value()), s)
    {
      books := books[s.instrument := ViewBook(Current, s.referenceSequence, s.bestBid, s.bestAsk)];
    }

    /** Marks every known book stale, one after another, and the stream with them. */
    method Invalidate()
      modifies this
      ensures Value() == Invalidated(old(Value()))
    {
      streamStale := true;
      ghost var before := books;
      var left := books.Keys;
      while left != {}
        invariant streamStale && left <= books.Keys == before.Keys
        invariant forall s :: s in before ==> books[s] == if s in left then before[s] else before[s].(state := Stale)
        decreases left
      {
        var s :| s in left;
        books := books[s := books[s].(state := Stale)];
        left := left - {s};
      }
      assert books == map s | s in before :: before[s].(state := Stale);
    }

    method Apply(sequence: Uint64, u: BookUpdate)
      modifies this
      ensures Value() == Applied(old(Value()), Packet(sequence, u))
    {
      if u.instrument !in books || books[u.instrument].state != Current
          || sequence <= books[u.instrument].lastSequence {
        return;
      }
      var book := books[u.instrument];
      var level: Option<Level> := None;
      if u.bestPrice.Some? {
        level := Some(Level(u.bestPrice.value, u.aggregateSize));
      }
      if u.direction == Buy {
        book := book.(bestBid := level);
      } else {
        book := book.(bestAsk := level);
      }
      books := books[u.instrument := book.(lastSequence := sequence)];
    }

    function State(s: Uint32): (state: ViewState)
      reads this
      ensures state == StateOf(Value(), s)
    {
      if s in books then books[s].state else if streamStale then Stale else AwaitingSnapshot
    }

    function Get(s: Uint32): (snapshot: Option<TopSnapshot>)
      reads this
      ensures snapshot == Got(Value(), s)
    {
      if s !in books || books[s].state != Current then None
      else Some(TopSnapshot(s, books[s].lastSequence, books[s].bestBid, books[s].bestAsk))
    }
  }

  // ---------- streams ----------

  function ApplyAll(v: View, packets: seq<Packet>): View
    decreases |packets|
  {
    if packets == [] then v else ApplyAll(Applied(v, packets[0]), packets[1..])
  }

  /** The part of a stream after sequence r. */
  function After(packets: seq<Packet>, r: Uint64): seq<Packet> {
    if packets == [] then []
    else (if packets[0].sequence > r then [packets[0]] else []) + After(packets[1..], r)
  }

  lemma {:induction false} ApplyAllConcat(v: View, a: seq<Packet>, b: seq<Packet>)
    ensures ApplyAll(v, a + b) == ApplyAll(ApplyAll(v, a), b)
    decreases |a|
  {
    if a == [] {
      assert a + b == b;
    } else {
      assert (a + b)[1..] == a[1..] + b;
      ApplyAllConcat(Applied(v, a[0]), a[1..], b);
    }
  }

  /** Two views show the same for a symbol. */
  predicate Agree(v: View, w: View, s: Uint32) {
    (s in v.books <==> s in w.books) && (s in v.books ==> v.books[s] == w.books[s])
  }

  /** Updates to one symbol never affect another. */
  lemma AppliedIsolated(v: View, p: Packet, s: Uint32)
    requires s != p.update.instrument
    ensures Agree(v, Applied(v, p), s)
  {
  }

  lemma AppliedAgrees(v: View, w: View, p: Packet, s: Uint32)
    requires Agree(v, w, s)
    ensures Agree(Applied(v, p), Applied(w, p), s)
  {
  }

  lemma {:induction false} AgreeForever(v: View, w: View, packets: seq<Packet>, s: Uint32)
    requires Agree(v, w, s)
    ensures Agree(ApplyAll(v, packets), ApplyAll(w, packets), s)
    decreases |packets|
  {
    if packets != [] {
      AppliedAgrees(v, w, packets[0], s);
      AgreeForever(Applied(v, packets[0]), Applied(w, packets[0]), packets[1..], s);
    }
  }

  lemma LastNeverFalls(v: View, p: Packet, s: Uint32)
    requires s in v.books
    ensures s in Applied(v, p).books && v.books[s].lastSequence <= Applied(v, p).books[s].lastSequence
    ensures v.books[s].state == Applied(v, p).books[s].state
  {
  }

  /** For a symbol that has seen r, the updates up to r may be dropped from the stream, in any order. */
  lemma {:induction false} OldUpdatesIgnored(v: View, packets: seq<Packet>, r: Uint64, s: Uint32)
    requires s in v.books && r <= v.books[s].lastSequence
    ensures Agree(ApplyAll(v, packets), ApplyAll(v, After(packets, r)), s)
    decreases |packets|
  {
    if packets != [] {
      var p, rest := packets[0], packets[1..];
      var w := Applied(v, p);
      LastNeverFalls(v, p, s);
      OldUpdatesIgnored(w, rest, r, s);
      if p.sequence > r {
        assert After(packets, r)[0] == p && After(packets, r)[1..] == After(rest, r);
      } else {
        assert After(packets, r) == After(rest, r);
        assert Agree(v, w, s);
        AgreeForever(v, w, After(rest, r), s);
      }
    }
  }

  /** Establishing at r and applying a whole stream is applying only what came after r. */
  lemma Rebase(v: View, snapshot: TopSnapshot, packets: seq<Packet>)
    ensures Agree(ApplyAll(Established(v, snapshot), packets),
                  ApplyAll(Established(v, snapshot), After(packets, snapshot.referenceSequence)),
                  snapshot.instrument)
  {
    OldUpdatesIgnored(Established(v, snapshot), packets, snapshot.referenceSequence, snapshot.instrument);
  }

  /** The view has nothing to learn from this packet: its book is not current, or has seen as much. */
  ghost predicate Seen(v: View, p: Packet) {
    !Applies(v, p)
  }

  lemma {:induction false} SeenStays(v: View, packets: seq<Packet>, p: Packet)
    requires Seen(v, p)
    ensures Seen(ApplyAll(v, packets), p)
    decreases |packets|
  {
    if packets != [] {
      if p.update.instrument in v.books {
        LastNeverFalls(v, packets[0], p.update.instrument);
      }
      SeenStays(Applied(v, packets[0]), packets[1..], p);
    }
  }

  lemma {:induction false} AppliedAreSeen(v: View, packets: seq<Packet>, i: nat)
    requires i < |packets|
    ensures Seen(ApplyAll(v, packets), packets[i])
    decreases |packets|
  {
    if i == 0 {
      SeenStays(Applied(v, packets[0]), packets[1..], packets[0]);
    } else {
      AppliedAreSeen(Applied(v, packets[0]), packets[1..], i - 1);
    }
  }

  lemma {:induction false} SeenChangesNothing(v: View, packets: seq<Packet>)
    requires forall i :: 0 <= i < |packets| ==> Seen(v, packets[i])
    ensures ApplyAll(v, packets) == v
    decreases |packets|
  {
    if packets != [] {
      assert Seen(v, packets[0]);
      SeenChangesNothing(v, packets[1..]);
    }
  }

  /** Replaying any packets already applied, in any order and number, changes nothing. */
  lemma {:induction false} ReplayChangesNothing(v: View, packets: seq<Packet>, again: seq<Packet>)
    requires forall i :: 0 <= i < |again| ==> again[i] in packets
    ensures ApplyAll(ApplyAll(v, packets), again) == ApplyAll(v, packets)
  {
    forall i | 0 <= i < |again|
      ensures Seen(ApplyAll(v, packets), again[i])
    {
      var j :| 0 <= j < |packets| && packets[j] == again[i];
      AppliedAreSeen(v, packets, j);
    }
    SeenChangesNothing(ApplyAll(v, packets), again);
  }

  /** After invalidation no update brings anything back; only a new snapshot does, and only for its symbol. */
  lemma {:induction false} StaleUntilSnapshot(v: View, packets: seq<Packet>, snapshot: TopSnapshot, s: Uint32)
    ensures ApplyAll(Invalidated(v), packets) == Invalidated(v)
    ensures StateOf(ApplyAll(Invalidated(v), packets), s) == Stale && Got(ApplyAll(Invalidated(v), packets), s) == None
    ensures StateOf(Established(Invalidated(v), snapshot), s) == if s == snapshot.instrument then Current else Stale
  {
    SeenChangesNothing(Invalidated(v), packets);
  }

  // ---------- what a subscriber is told ----------

  /** A snapshot just established is what `get` returns, and it is current; other symbols are as before. */
  lemma EstablishedIsGot(v: View, snapshot: TopSnapshot, s: Uint32)
    ensures Got(Established(v, snapshot), snapshot.instrument) == Some(snapshot)
    ensures StateOf(Established(v, snapshot), snapshot.instrument) == Current
    ensures s != snapshot.instrument ==>
              Got(Established(v, snapshot), s) == Got(v, s) && StateOf(Established(v, snapshot), s) == StateOf(v, s)
  {
  }

  /**
   What one packet does to the answer for its symbol: a newer one replaces its side with
   its price and size, or with nothing, and its sequence becomes the reference; an older
   one, or one for a book that is not current, does nothing.
   */
  lemma AppliedIsGot(v: View, p: Packet)
    ensures var s, u := p.update.instrument, p.update;
            match Got(v, s)
            case None => Applied(v, p) == v
            case Some(x) =>
              if p.sequence <= x.referenceSequence then Applied(v, p) == v
              else
                var level := match u.bestPrice
                             case None => None
                             case Some(price) => Some(Level(price, u.aggregateSize));
                Got(Applied(v, p), s) == Some(
                  if u.direction == Buy then TopSnapshot(s, p.sequence, level, x.bestAsk)
                  else TopSnapshot(s, p.sequence, x.bestBid, level))
  {
  }

  /**
   Until the first invalidation a symbol without a snapshot is awaited, whatever updates arrive;
   `get` has nothing.
   */
  lemma {:induction false} AwaitedUntilSnapshot(v: View, packets: seq<Packet>, s: Uint32)
    requires s !in v.books && !v.streamStale
    ensures StateOf(ApplyAll(v, packets), s) == AwaitingSnapshot && Got(ApplyAll(v, packets), s) == None
    decreases |packets|
  {
    if packets != [] {
      AwaitedUntilSnapshot(Applied(v, packets[0]), packets[1..], s);
    }
  }

  /** `get` answers exactly for the symbols that `state` calls current. */
  lemma GotIffCurrent(v: View, s: Uint32)
    ensures Got(v, s).Some? <==> StateOf(v, s) == Current
    ensures Got(v, s).Some? ==> Got(v, s).value.instrument == s
  {
  }
}
