/** One symbol's order book: two sides, and the commands that reach them. */
module OrderBooks {
  import opened Domain
  import opened PriceTime
  import opened MatchingSpec
  import opened MatchingInvariant
  import opened BookSides
  import opened LevelFacts

  datatype SubmitResult = SubmitResult(events: seq<Event>, restingOrder: Handle, filled: seq<Key>)
  datatype UpdateResult = UpdateResult(events: seq<Event>, restingOrder: Handle, filled: seq<Key>, updated: bool)
  datatype CancelResult = CancelResult(events: seq<Event>, cancelled: bool)

  function LimitPrice(pricing: Pricing): Option<Price> {
    match pricing
    case Limit(p) => Some(p)
    case Market => None
  }

  class OrderBook {
    const instrument: Uint32
    const bids: BookSide
    const asks: BookSide

    constructor (instrument: Uint32)
      ensures Valid() && Value() == Book([], []) && this.instrument == instrument
      ensures fresh(bids) && fresh(asks) && bids.nodes == [] && asks.nodes == []
    {
      this.instrument := instrument;
      bids := new BookSide(instrument, Buy);
      asks := new BookSide(instrument, Sell);
    }

    ghost predicate Valid()
      reads bids, bids.nodes, asks, asks.nodes
    {
      && bids.direction == Buy && asks.direction == Sell
      && bids.instrument == instrument && asks.instrument == instrument
      && bids.Valid() && asks.Valid()
      && BookInv(Value())
    }

    ghost function Value(): Book
      reads bids, asks
    {
      Book(bids.book, asks.book)
    }

    function Half(d: Side): BookSide {
      if d == Buy then bids else asks
    }

    method Snapshot(depth: nat) returns (snapshot: BookSnapshot)
      requires Valid()
      ensures snapshot == SnapshotOf(instrument, Value(), depth)
    {
      var b := bids.SnapshotLevels(depth);
      var a := asks.SnapshotLevels(depth);
      snapshot := BookSnapshot(instrument, b, a);
    }

    /** Matches an incoming order against `opposite` and rests what is left of a limit order on `own`. */
    method MatchThenRest(pricing: Pricing, incoming: IncomingOrder, own: BookSide, opposite: BookSide,
                         events: seq<Event>)
      returns (events': seq<Event>, filled: seq<Key>, handle: Handle)
      requires own.Valid() && opposite.Valid()
      requires own.direction == incoming.direction && opposite.direction == Opposite(incoming.direction)
      requires !Holds(own.book, incoming.key)
      modifies incoming, own`levels, own`nodes, own`book, opposite`levels, opposite`nodes, opposite`book, opposite.nodes
      ensures own.Valid() && opposite.Valid()
      ensures var f := Greedy(old(opposite.book), incoming.direction, pricing, old(incoming.openSize));
              && opposite.book == f.rest && filled == f.filled
              && events' == events + TradeEvents(opposite.instrument, incoming.key, f.trades)
              && handle.Handle? == (0 < f.open && pricing.Limit?)
              && own.book == if handle.Handle?
                             then Join(own.direction, old(own.book),
                                       Order(incoming.key, own.direction, pricing.price, f.open, incoming.sequence))
                             else old(own.book)
      ensures handle.Handle? ==> own.Owns(handle, incoming.key) && fresh(handle.order)
      ensures forall n :: n in old(own.nodes) ==> n in own.nodes
      ensures forall n :: n in own.nodes ==> n in old(own.nodes) || fresh(n)
      ensures forall n :: n in opposite.nodes ==> n in old(opposite.nodes)
      ensures forall n :: n in old(opposite.nodes) ==> n in opposite.nodes || n.key in filled
    {
      hide Grouped, Nodes, SideInv, Greedy, Join, TradeEvents;
      own.Apart(opposite);
      events', filled := opposite.MatchOrder(pricing, incoming, events, []);
      handle := NoHandle;
      if 0 < incoming.openSize {
        match LimitPrice(pricing)
        case Some(restingPrice) =>
          handle := own.RestOrder(incoming, restingPrice);
        case None =>
      }
    }

    /** Appends an update when a side's best price or aggregate has changed. */
    function AppendBookUpdateIfChanged(d: Side, before: Option<LevelView>, after: Option<LevelView>,
                                       events: seq<Event>): seq<Event> {
      events + TopChange(instrument, d, before, after)
    }

    /**
     Both the buy and the sell path report the bid side before the ask side; the side
     that only rests changes nothing but its own top, and only when it rests.
     */
    method Submit(o: SubmitOrder, sequence: Uint64) returns (result: SubmitResult)
      requires Valid() && o.instrument == instrument && 0 < o.size && !Rests(Value(), o.key)
      modifies bids, bids.nodes, asks, asks.nodes
      ensures Valid()
      ensures var r := SubmitToBook(old(Value()), o, sequence);
              && Value() == r.book && result.events == r.events && result.filled == r.filled
              && result.restingOrder.Handle? == r.rested
      ensures result.restingOrder.Handle? ==> Half(result.restingOrder.direction).Owns(result.restingOrder, o.key)
      ensures forall n :: n in old(bids.nodes) ==> n in bids.nodes || n.key in result.filled
      ensures forall n :: n in old(asks.nodes) ==> n in asks.nodes || n.key in result.filled
      ensures forall n :: n in bids.nodes ==> n in old(bids.nodes) || fresh(n)
      ensures forall n :: n in asks.nodes ==> n in old(asks.nodes) || fresh(n)
    {
      hide BookSide.Valid, BookSide.Linked, SideInv, Greedy, Join, BookInv, Top, TopChange, TradeEvents;
      ExecuteKeeps(Value(), o.key, o.direction, o.pricing, o.size, sequence);
      var bestBidBefore, bestAskBefore := bids.TopOfBook(), asks.TopOfBook();
      var incoming := new IncomingOrder(o.key, o.direction, o.size, sequence);
      var events, filled, handle :=
        MatchThenRest(o.pricing, incoming, Half(o.direction), Half(Opposite(o.direction)), [SubmitAccepted(o.key)]);
      events := AppendBookUpdateIfChanged(Buy, bestBidBefore, bids.TopOfBook(), events);
      events := AppendBookUpdateIfChanged(Sell, bestAskBefore, asks.TopOfBook(), events);
      result := SubmitResult(events, handle, filled);
    }

    /** What a handle that names its order says about the flat book. */
    lemma {:induction false} Named(handle: Handle, key: Key)
      requires Valid() && handle.Handle? && Half(handle.direction).Fits(handle)
               && Half(handle.direction).Names(handle, key)
      ensures var own, d := Half(handle.direction).book, handle.direction;
              var i := Find(own, key);
              && Half(d).Owns(handle, key)
              && i < |own| && own[i].open == handle.order.openSize && own[i].price == handle.price
              && BookInv(Value().With(d, RemoveAt(own, i))) && !Rests(Value().With(d, RemoveAt(own, i)), key)
    {
      hide BookSide.Valid, BookSide.Linked, SideInv, BookInv, RemoveAt;
      var i, j, k := Half(handle.direction).Locate(handle, key);
      RemovalKeeps(Value(), handle.direction, k);
    }

    /** The in-place part of an update. */
    method ReduceInPlace(u: UpdateOrder, handle: Handle, own: BookSide) returns (reduced: bool, events: seq<Event>)
      requires Valid() && handle.Handle? && own == Half(handle.direction) && own.Fits(handle) && 0 < u.size
      modifies own, own.nodes
      ensures Valid() && own.nodes == old(own.nodes)
      ensures own.levels == old(own.levels) || reduced
      ensures reduced == (old(own.Names(handle, u.key)) && u.pricing == Limit(handle.price)
                          && u.size <= old(handle.order.openSize))
      ensures !reduced ==> Value() == old(Value()) && handle.order.openSize == old(handle.order.openSize)
      ensures reduced ==>
        var i := Find(old(own.book), u.key);
        && i < |old(own.book)|
        && var r := ReduceInBook(instrument, old(Value()), handle.direction, i, u);
        Value() == r.book && events == r.events && r.filled == [] && r.rested && r.applied
    {
      hide Grouped, Nodes, SideInv, BookInv, Top, TopChange, RemoveAt, Resized, Find;
      own.Apart(Half(Opposite(handle.direction)));
      ghost var before, i := Value(), Find(own.book, u.key);
      var bestBefore := own.TopOfBook();
      events := [];
      reduced := own.ReduceOrderSize(u, handle);
      if reduced {
        ResizeBookKeeps(before, handle.direction, i, u.size);
        events := AppendBookUpdateIfChanged(handle.direction, bestBefore, own.TopOfBook(), [UpdateAccepted(u.key)]);
      }
    }

    method Update(u: UpdateOrder, handle: Handle, sequence: Uint64) returns (result: UpdateResult)
      requires Valid() && 0 < u.size
      requires handle.Handle? ==> Half(handle.direction).Fits(handle)
      modifies bids, bids.nodes, asks, asks.nodes
      ensures Valid()
      ensures result.updated == old(handle.Handle? && Half(handle.direction).Names(handle, u.key))
      ensures !result.updated ==>
        && Value() == old(Value()) && result.filled == []
        && bids.nodes == old(bids.nodes) && asks.nodes == old(asks.nodes)
      ensures result.updated ==>
        var r := UpdateInBook(instrument, old(Value()), handle.direction, u, sequence);
        && r.applied && Value() == r.book && result.events == r.events && result.filled == r.filled
        && result.restingOrder.Handle? == r.rested
      ensures result.updated && result.restingOrder.Handle? ==>
        Half(result.restingOrder.direction).Owns(result.restingOrder, u.key)
      ensures forall n :: n in old(bids.nodes) ==> n in bids.nodes || n.key in result.filled || n.key == u.key
      ensures forall n :: n in old(asks.nodes) ==> n in asks.nodes || n.key in result.filled || n.key == u.key
      ensures forall n :: n in bids.nodes ==> n in old(bids.nodes) || fresh(n)
      ensures forall n :: n in asks.nodes ==> n in old(asks.nodes) || fresh(n)
    {
      hide BookSide.Valid, BookSide.Linked, SideInv, BookInv, RemoveAt, Find, ReduceInBook, ReplaceInBook, HasLevel;
      if !handle.Handle? {
        return UpdateResult([], NoHandle, [], false);
      }
      var own := Half(handle.direction);
      if own.Names(handle, u.key) {
        Named(handle, u.key);
      }
      var reduced, events := ReduceInPlace(u, handle, own);
      if reduced {
        return UpdateResult(events, handle, [], true);
      }
      result := ReplaceOrder(u, handle, own, Half(Opposite(handle.direction)), sequence);
    }

    /** Removes the order, matches it afresh as the aggressor, and rests what is left at the new price. */
    method ReplaceOrder(u: UpdateOrder, handle: Handle, own: BookSide, opposite: BookSide, sequence: Uint64)
      returns (result: UpdateResult)
      requires Valid() && handle.Handle? && own == Half(handle.direction)
               && opposite == Half(Opposite(handle.direction))
      requires own.Fits(handle) && 0 < u.size
      modifies bids, bids.nodes, asks, asks.nodes
      ensures Valid()
      ensures result.updated == old(own.Names(handle, u.key))
      ensures !result.updated ==>
        && Value() == old(Value()) && result.filled == []
        && bids.nodes == old(bids.nodes) && asks.nodes == old(asks.nodes)
      ensures result.updated ==>
        var i := Find(old(own.book), u.key);
        && i < |old(own.book)|
        && var r := ReplaceInBook(instrument, old(Value()), handle.direction, i, u, sequence);
        && r.applied && Value() == r.book && result.events == r.events && result.filled == r.filled
        && result.restingOrder.Handle? == r.rested
      ensures result.updated && result.restingOrder.Handle? ==>
        Half(result.restingOrder.direction).Owns(result.restingOrder, u.key)
      ensures forall n :: n in old(own.nodes) ==> n in own.nodes || n.key == u.key
      ensures forall n :: n in old(opposite.nodes) ==> n in opposite.nodes || n.key in result.filled
      ensures forall n :: n in own.nodes ==> n in old(own.nodes) || fresh(n)
      ensures forall n :: n in opposite.nodes ==> n in old(opposite.nodes) || fresh(n)
    {
      hide BookSide.Valid, BookSide.Linked, SideInv, Greedy, Join, BookInv, Top, TopChange, TradeEvents, RemoveAt, Find;
      result := UpdateResult([], NoHandle, [], false);
      own.Apart(opposite);
      if own.Names(handle, u.key) {
        Named(handle, u.key);
      }
      var ownBestBefore, oppositeBestBefore := own.TopOfBook(), opposite.TopOfBook();
      var removed := own.RemoveOrder(u.key, handle);
      if removed {
        ExecuteKeeps(Value(), u.key, handle.direction, u.pricing, u.size, sequence);
        var incoming := new IncomingOrder(u.key, handle.direction, u.size, sequence);
        var events, filled, resting := MatchThenRest(u.pricing, incoming, own, opposite, [UpdateAccepted(u.key)]);
        events := AppendBookUpdateIfChanged(handle.direction, ownBestBefore, own.TopOfBook(), events);
        events := AppendBookUpdateIfChanged(Opposite(handle.direction), oppositeBestBefore, opposite.TopOfBook(),
                                            events);
        result := UpdateResult(events, resting, filled, true);
      }
    }

    method Cancel(key: Key, handle: Handle) returns (result: CancelResult)
      requires Valid()
      requires handle.Handle? ==> Half(handle.direction).Fits(handle)
      modifies bids, asks
      ensures Valid()
      ensures result.cancelled == old(handle.Handle? && Half(handle.direction).Names(handle, key))
      ensures !result.cancelled ==>
        && Value() == old(Value()) && result.events == []
        && bids.nodes == old(bids.nodes) && asks.nodes == old(asks.nodes)
      ensures result.cancelled ==>
        var r := CancelInBook(instrument, old(Value()), handle.direction, key);
        r.applied && Value() == r.book && result.events == r.events
      ensures forall n :: n in old(bids.nodes) ==> n in bids.nodes || n.key == key
      ensures forall n :: n in old(asks.nodes) ==> n in asks.nodes || n.key == key
      ensures forall n :: n in bids.nodes ==> n in old(bids.nodes)
      ensures forall n :: n in asks.nodes ==> n in old(asks.nodes)
    {
      hide BookSide.Valid, BookSide.Linked, SideInv, BookInv, Top, TopChange, RemoveAt, Find;
      if !handle.Handle? {
        return CancelResult([], false);
      }
      var own := Half(handle.direction);
      own.Apart(Half(Opposite(handle.direction)));
      if own.Names(handle, key) {
        Named(handle, key);
      }
      var bestBefore := own.TopOfBook();
      var cancelled, events := own.CancelFromLevels(key, handle, []);
      if cancelled {
        events := AppendBookUpdateIfChanged(handle.direction, bestBefore, own.TopOfBook(), events);
      }
      result := CancelResult(events, cancelled);
    }
  }
}
