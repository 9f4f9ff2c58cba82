/**
 The matching engine: the books, the index of active orders by key, and the
 order-priority counter.  Every command is proved to be one step of
 `MatchingSpec.Step`.
 */
module Engines {
  import opened Domain
  import opened PriceTime
  import opened LevelFacts
  import opened MatchingSpec
  import opened MatchingInvariant
  import opened BookSides
  import opened OrderBooks

  datatype ActiveOrder = ActiveOrder(instrument: Uint32, handle: Handle)

  // ---------- one book and the handles into it ----------

  /** The book of symbol s is sound, stands for this value, and owns this footprint. */
  ghost predicate Sound(b: OrderBook, s: Uint32, v: Book, repr: set<object>)
    reads repr
  {
    && b.bids in repr && b.asks in repr
    && (forall n :: n in b.bids.nodes ==> n in repr)
    && (forall n :: n in b.asks.nodes ==> n in repr)
    && b.instrument == s && b.Valid() && b.Value() == v
  }

  /** The handle of an active order points at its key's node, on its side of the book. */
  ghost predicate PointsInto(a: ActiveOrder, b: OrderBook, k: Key, repr: set<object>)
    reads repr
  {
    && b.bids in repr && b.asks in repr
    && a.handle.Handle? && b.Half(a.handle.direction).Owns(a.handle, k)
  }

  /** Every handle of this symbol points into the book. */
  ghost predicate AllPoint(active: map<Key, ActiveOrder>, b: OrderBook, s: Uint32, gone: set<Key>, repr: set<object>)
    reads repr
  {
    forall k :: k in active && active[k].instrument == s && k !in gone ==> PointsInto(active[k], b, k, repr)
  }

  lemma HandleUsable(a: ActiveOrder, b: OrderBook, k: Key, s: Uint32, v: Book, repr: set<object>)
    requires Sound(b, s, v, repr) && PointsInto(a, b, k, repr)
    ensures var side := b.Half(a.handle.direction);
            side.Fits(a.handle) && side.Names(a.handle, k) && a.handle.direction == HoldingSide(v, k)
  {
    var side := b.Half(a.handle.direction);
    side.OwnsNames(a.handle, k);
    assert Holds(v.Half(a.handle.direction), k);
  }

  method SubmitTo(b: OrderBook, o: SubmitOrder, sequence: Uint64,
                  ghost v: Book, ghost repr: set<object>, ghost active: map<Key, ActiveOrder>)
    returns (result: SubmitResult, ghost repr': set<object>)
    requires Sound(b, o.instrument, v, repr) && 0 < o.size && !Rests(v, o.key)
    requires AllPoint(active, b, o.instrument, {}, repr)
    modifies repr
    ensures var r := SubmitToBook(v, o, sequence);
            && Sound(b, o.instrument, r.book, repr') && fresh(repr' - repr)
            && result.events == r.events && result.filled == r.filled && result.restingOrder.Handle? == r.rested
            && (r.rested ==> PointsInto(ActiveOrder(o.instrument, result.restingOrder), b, o.key, repr'))
            && AllPoint(active, b, o.instrument, Keys(r.filled), repr')
  {
    hide SideInv, BookInv, Grouped, Nodes, SubmitToBook;
    result := b.Submit(o, sequence);
    repr' := repr + (set n | n in b.bids.nodes) + (set n | n in b.asks.nodes);
  }

  method UpdateIn(b: OrderBook, s: Uint32, u: UpdateOrder, handle: Handle, sequence: Uint64,
                  ghost v: Book, ghost repr: set<object>, ghost active: map<Key, ActiveOrder>)
    returns (result: UpdateResult, ghost repr': set<object>)
    requires Sound(b, s, v, repr) && 0 < u.size
    requires PointsInto(ActiveOrder(s, handle), b, u.key, repr)
    requires AllPoint(active, b, s, {}, repr)
    modifies repr
    ensures var r := UpdateInBook(s, v, HoldingSide(v, u.key), u, sequence);
            && r.applied && result.updated
            && Sound(b, s, r.book, repr') && fresh(repr' - repr)
            && result.events == r.events && result.filled == r.filled && result.restingOrder.Handle? == r.rested
            && (r.rested ==> PointsInto(ActiveOrder(s, result.restingOrder), b, u.key, repr'))
            && AllPoint(active, b, s, Keys(r.filled) + {u.key}, repr')
  {
    hide SideInv, BookInv, Grouped, Nodes, UpdateInBook;
    HandleUsable(ActiveOrder(s, handle), b, u.key, s, v, repr);
    result := b.Update(u, handle, sequence);
    repr' := repr + (set n | n in b.bids.nodes) + (set n | n in b.asks.nodes);
  }

  method CancelIn(b: OrderBook, s: Uint32, key: Key, handle: Handle,
                  ghost v: Book, ghost repr: set<object>, ghost active: map<Key, ActiveOrder>)
    returns (result: CancelResult)
    requires Sound(b, s, v, repr)
    requires PointsInto(ActiveOrder(s, handle), b, key, repr)
    requires AllPoint(active, b, s, {}, repr)
    modifies repr
    ensures var r := CancelInBook(s, v, HoldingSide(v, key), key);
            && r.applied && result.cancelled
            && Sound(b, s, r.book, repr)
            && result.events == r.events
            && AllPoint(active, b, s, {key}, repr)
  {
    hide SideInv, BookInv, Grouped, Nodes, CancelInBook;
    HandleUsable(ActiveOrder(s, handle), b, key, s, v, repr);
    result := b.Cancel(key, handle);
  }

  // ---------- all the books ----------

  /** Every book is sound in its own footprint, and footprints are disjoint. */
  ghost predicate Shelved(books: map<Uint32, OrderBook>, values: map<Uint32, Book>, homes: map<Uint32, set<object>>,
                          repr: set<object>)
    reads repr
  {
    && books.Keys == values.Keys == homes.Keys
    && (forall s :: s in books ==> homes[s] <= repr && Sound(books[s], s, values[s], homes[s]))
    && (forall s, t :: s in books && t in books && s != t ==> homes[s] !! homes[t])
  }

  /** Every active key has its owner's book and a handle into it. */
  ghost predicate Indexed(active: map<Key, ActiveOrder>, books: map<Uint32, OrderBook>, owner: map<Key, Uint32>,
                          homes: map<Uint32, set<object>>, repr: set<object>)
    reads repr
  {
    && active.Keys == owner.Keys
    && (forall k :: k in active ==> active[k].instrument == owner[k])
    && (forall s :: s in books ==> s in homes && homes[s] <= repr && AllPoint(active, books[s], s, {}, homes[s]))
  }

  /** The footprint without book s. */
  ghost function Rest(homes: map<Uint32, set<object>>, s: Uint32, repr: set<object>): set<object> {
    if s in homes then repr - homes[s] else repr
  }

  /** Every book but s stands for its value in its own footprint. */
  ghost predicate OthersShelved(books: map<Uint32, OrderBook>, values: map<Uint32, Book>,
                                homes: map<Uint32, set<object>>,
                                s: Uint32, rest: set<object>)
    reads rest
  {
    && books.Keys == values.Keys == homes.Keys
    && (forall t :: t in books && t != s ==> homes[t] <= rest && Sound(books[t], t, values[t], homes[t]))
    && (forall t, x :: t in books && x in books && t != s && x != s && t != x ==> homes[t] !! homes[x])
  }

  /** Every handle of another symbol points into its book. */
  ghost predicate OthersPoint(active: map<Key, ActiveOrder>, books: map<Uint32, OrderBook>,
                              homes: map<Uint32, set<object>>,
                              s: Uint32, rest: set<object>)
    reads rest
  {
    && books.Keys == homes.Keys
    && (forall t :: t in books && t != s ==> homes[t] <= rest && AllPoint(active, books[t], t, {}, homes[t]))
  }

  lemma SplitShelf(books: map<Uint32, OrderBook>, values: map<Uint32, Book>, homes: map<Uint32, set<object>>,
                   repr: set<object>, s: Uint32)
    requires Shelved(books, values, homes, repr)
    ensures OthersShelved(books, values, homes, s, Rest(homes, s, repr))
    ensures books.Keys == values.Keys == homes.Keys
    ensures s in books ==> homes[s] <= repr && Sound(books[s], s, values[s], homes[s])
  {
    hide Sound;
  }

  /** books' is books with book s put in its place (it may already be there). */
  ghost predicate PutIn(books: map<Uint32, OrderBook>, books': map<Uint32, OrderBook>, s: Uint32) {
    && books'.Keys == books.Keys + {s}
    && (forall t :: t in books && t != s ==> books'[t] == books[t])
  }

  lemma JoinShelf(books: map<Uint32, OrderBook>, values: map<Uint32, Book>, homes: map<Uint32, set<object>>,
                  rest: set<object>,
                  s: Uint32, books': map<Uint32, OrderBook>, v: Book, home: set<object>)
    requires OthersShelved(books, values, homes, s, rest) && PutIn(books, books', s)
    requires Sound(books'[s], s, v, home) && home !! rest
    ensures Shelved(books', values[s := v], homes[s := home], rest + home)
  {
    hide Sound;
  }

  lemma SplitIndex(active: map<Key, ActiveOrder>, books: map<Uint32, OrderBook>, owner: map<Key, Uint32>,
                   homes: map<Uint32, set<object>>, values: map<Uint32, Book>, repr: set<object>, s: Uint32)
    requires Shelved(books, values, homes, repr) && Indexed(active, books, owner, homes, repr)
    ensures OthersPoint(active, books, homes, s, Rest(homes, s, repr))
    ensures active.Keys == owner.Keys && forall k :: k in active ==> active[k].instrument == owner[k]
    ensures s in books ==> s in homes && homes[s] <= repr && AllPoint(active, books[s], s, {}, homes[s])
  {
    hide Sound, AllPoint;
  }

  /** The index after a command on book s: keys gone are dropped, and what is (re)entered points into s. */
  lemma JoinIndex(active: map<Key, ActiveOrder>, books: map<Uint32, OrderBook>, homes: map<Uint32, set<object>>,
                  rest: set<object>,
                  s: Uint32, books': map<Uint32, OrderBook>, home: set<object>, gone: set<Key>,
                  active': map<Key, ActiveOrder>, owner': map<Key, Uint32>)
    requires OthersPoint(active, books, homes, s, rest) && PutIn(books, books', s)
             && AllPoint(active, books'[s], s, gone, home)
    requires active'.Keys == owner'.Keys && forall k :: k in active' ==> active'[k].instrument == owner'[k]
    requires forall k :: k in active' ==>
      (k in active && k !in gone && active'[k] == active[k])
      || (active'[k].instrument == s && PointsInto(active'[k], books'[s], k, home))
    ensures Indexed(active', books', owner', homes[s := home], rest + home)
  {
    hide PointsInto;
    var homes' := homes[s := home];
    forall t | t in books'
      ensures AllPoint(active', books'[t], t, {}, homes'[t])
    {
      assert t != s ==> AllPoint(active, books[t], t, {}, homes[t]);
    }
  }

  /** The index and the model's owners after a submit: filled keys erased, the rested key entered. */
  lemma SubmitIndex(active: map<Key, ActiveOrder>, books: map<Uint32, OrderBook>, homes: map<Uint32, set<object>>,
                    rest: set<object>,
                    s: Uint32, home: set<object>, filled: seq<Key>, key: Key, handle: Handle,
                    owner: map<Key, Uint32>)
    requires s in books && OthersPoint(active, books, homes, s, rest)
             && AllPoint(active, books[s], s, Keys(filled), home)
    requires active.Keys == owner.Keys && forall k :: k in active ==> active[k].instrument == owner[k]
    requires handle.Handle? ==> PointsInto(ActiveOrder(s, handle), books[s], key, home)
    ensures var kept, owners := active - Keys(filled), owner - Keys(filled);
            if handle.Handle?
            then Indexed(kept[key := ActiveOrder(s, handle)], books, owners[key := s], homes[s := home], rest + home)
            else Indexed(kept, books, owners, homes[s := home], rest + home)
  {
    hide PointsInto, AllPoint, OthersPoint, Indexed, Keys;
    var kept, owners := active - Keys(filled), owner - Keys(filled);
    if handle.Handle? {
      JoinIndex(active, books, homes, rest, s, books, home, Keys(filled), kept[key := ActiveOrder(s, handle)],
                owners[key := s]);
    } else {
      JoinIndex(active, books, homes, rest, s, books, home, Keys(filled), kept, owners);
    }
  }

  /** Creating an empty book changes no resting key. */
  lemma {:induction false} CreateKeeps(st: State, s: Uint32)
    requires Inv(st) && s != 0
    ensures Inv(st.(books := st.books[s := BookOf(st.books, s)]))
  {
    var t := st.(books := st.books[s := BookOf(st.books, s)]);
    forall x: Uint32, k: Key
      ensures Rests(BookOf(t.books, x), k) <==> k in t.owner && t.owner[k] == x
    {
      assert BookOf(t.books, x) == BookOf(st.books, x);
    }
  }

  lemma NewSound(b: OrderBook, s: Uint32, active: map<Key, ActiveOrder>)
    requires b.instrument == s && b.Valid() && b.Value() == Book([], []) && b.bids.nodes == [] && b.asks.nodes == []
    requires forall k :: k in active ==> active[k].instrument != s
    ensures Sound(b, s, Book([], []), {b.bids, b.asks}) && AllPoint(active, b, s, {}, {b.bids, b.asks})
  {
  }

  lemma OwnersHaveBooks(st: State)
    requires Inv(st)
    ensures forall k :: k in st.owner ==> st.owner[k] in st.books
  {
    forall k | k in st.owner
      ensures st.owner[k] in st.books
    {
      ActiveRests(st, k);
    }
  }

  class Engine {
    var books: map<Uint32, OrderBook>
    var active: map<Key, ActiveOrder>
    var nextSequence: Uint64
    /** The abstract state this engine stands for. */
    ghost var model: State
    /** The footprint of each book, and of all of them. */
    ghost var homes: map<Uint32, set<object>>
    ghost var Repr: set<object>

    constructor ()
      ensures Valid() && model == INITIAL && fresh(Repr)
    {
      books, active, nextSequence := map[], map[], 1;
      model, homes, Repr := INITIAL, map[], {};
    }

    ghost predicate Valid()
      reads this, Repr
    {
      && this !in Repr
      && Inv(model) && model.next == nextSequence
      && Shelved(books, model.books, homes, Repr)
      && Indexed(active, books, model.owner, homes, Repr)
    }

    method Snapshot(s: Uint32, depth: nat) returns (snapshot: Option<BookSnapshot>)
      requires Valid()
      ensures snapshot == if s in model.books then Some(SnapshotOf(s, model.books[s], depth)) else None
    {
      hide Inv, Indexed, PointsInto, SnapshotOf, SideInv, BookInv, Grouped, Nodes;
      if s !in books {
        return None;
      }
      var found := books[s].Snapshot(depth);
      snapshot := Some(found);
    }

    method GetOrCreateBook(s: Uint32) returns (book: OrderBook)
      requires Valid() && s != 0
      modifies this`books, this`model, this`homes, this`Repr
      ensures Valid() && s in books && books[s] == book
      ensures fresh(Repr - old(Repr))
      ensures model == old(model).(books := old(model).books[s := BookOf(old(model).books, s)])
    {
      hide Inv, Sound, PointsInto, AllPoint;
      if s !in books {
        CreateBook(s);
      }
      book := books[s];
      assert model.books == old(model).books[s := BookOf(old(model).books, s)];
    }

    method CreateBook(s: Uint32)
      requires Valid() && s != 0 && s !in books
      modifies this`books, this`model, this`homes, this`Repr
      ensures Valid() && s in books
      ensures fresh(Repr - old(Repr))
      ensures model == old(model).(books := old(model).books[s := Book([], [])])
    {
      hide Inv, Shelved, Indexed;
      var created := new OrderBook(s);
      Shelve(s, created);
    }

    /** Puts a new empty book among the others. */
    method Shelve(s: Uint32, created: OrderBook)
      requires Valid() && s != 0 && s !in books
      requires created.Valid() && created.Value() == Book([], []) && created.instrument == s
      requires created.bids.nodes == [] && created.asks.nodes == []
      requires {created.bids, created.asks} !! Repr
      modifies this`books, this`model, this`homes, this`Repr
      ensures Valid() && books == old(books)[s := created]
      ensures Repr == old(Repr) + {created.bids, created.asks}
      ensures model == old(model).(books := old(model).books[s := Book([], [])])
    {
      hide Inv, Sound, PointsInto, AllPoint, Shelved, Indexed, OthersShelved, OthersPoint, OrderBook.Valid;
      OwnersHaveBooks(model);
      SplitShelf(books, model.books, homes, Repr, s);
      SplitIndex(active, books, model.owner, homes, model.books, Repr, s);
      ghost var home: set<object> := {created.bids, created.asks};
      NewSound(created, s, active);
      CreateKeeps(model, s);
      JoinShelf(books, model.books, homes, Repr, s, books[s := created], Book([], []), home);
      JoinIndex(active, books, homes, Repr, s, books[s := created], home, {}, active, model.owner);
      books, homes, Repr := books[s := created], homes[s := home], Repr + home;
      model := model.(books := model.books[s := Book([], [])]);
    }

    /** Erases the filled keys one by one. */
    method EraseFilled(filled: seq<Key>)
      modifies this`active
      ensures active == old(active) - Keys(filled)
    {
      var i := 0;
      while i < |filled|
        invariant 0 <= i <= |filled|
        invariant active == old(active) - Keys(filled[..i])
      {
        active := active - {filled[i]};
        assert Keys(filled[..i + 1]) == Keys(filled[..i]) + {filled[i]};
        i := i + 1;
      }
      assert filled[..i] == filled;
    }

    method RecordSubmitResult(o: SubmitOrder, result: SubmitResult)
      modifies this`active
      ensures var left := old(active) - Keys(result.filled);
              active == if result.restingOrder.Handle?
                        then left[o.key := ActiveOrder(o.instrument, result.restingOrder)]
                        else left
    {
      EraseFilled(result.filled);
      if result.restingOrder.Handle? {
        active := active[o.key := ActiveOrder(o.instrument, result.restingOrder)];
      }
    }

    /** The entry of `key` is held across the erasures, so its key must not be among them. */
    method RecordUpdateResult(key: Key, result: UpdateResult)
      requires key in active && key !in result.filled
      modifies this`active
      ensures var left := old(active) - Keys(result.filled);
              active == if result.restingOrder.Handle?
                        then left[key := old(active)[key].(handle := result.restingOrder)]
                        else left - {key}
    {
      EraseFilled(result.filled);
      if result.restingOrder.Handle? {
        active := active[key := active[key].(handle := result.restingOrder)];
      } else {
        active := active - {key};
      }
    }

    method RecordCancelResult(key: Key, result: CancelResult)
      modifies this`active
      ensures active == if result.cancelled then old(active) - {key} else old(active)
    {
      if result.cancelled {
        active := active - {key};
      }
    }

    method Submit(o: SubmitOrder) returns (events: seq<Event>)
      requires Valid()
      modifies this, Repr
      ensures Valid() && fresh(Repr - old(Repr))
      ensures var x := SubmitStep(old(model), o);
              model == x.state && Response.Events(events) == x.response
    {
      hide Inv, Sound, PointsInto, AllPoint, SubmitToBook, Shelved, Indexed, OthersShelved, OthersPoint;
      SubmitKeeps(model, o);
      SplitIndex(active, books, model.owner, homes, model.books, Repr, 0);
      match SubmitFault(o) {
        case Some(reason) =>
          return [SubmitRejected(o.key, reason)];
        case None =>
      }
      if o.key in active {
        return [SubmitRejected(o.key, KeyAlreadyActive)];
      }
      events := AcceptSubmit(o);
    }

    /** The model's owners, and the index with its handles, after a submit. */
    ghost predicate SubmitIndexed(o: SubmitOrder, r: BookResult, handle: Handle)
      reads this, Repr
    {
      var kept, owners := active - Keys(r.filled), model.owner - Keys(r.filled);
      if r.rested
      then Indexed(kept[o.key := ActiveOrder(o.instrument, handle)], books, owners[o.key := o.instrument], homes, Repr)
      else Indexed(kept, books, owners, homes, Repr)
    }

    /** The order goes to its book; the other books and handles are left alone. */
    method SubmitToShelf(o: SubmitOrder, sequence: Uint64) returns (result: SubmitResult)
      requires this !in Repr && o.instrument in books && 0 < o.size
      requires Shelved(books, model.books, homes, Repr) && Indexed(active, books, model.owner, homes, Repr)
      requires o.instrument in model.books && !Rests(model.books[o.instrument], o.key)
      modifies this`homes, this`Repr, Repr
      ensures this !in Repr && fresh(Repr - old(Repr))
      ensures var r := SubmitToBook(model.books[o.instrument], o, sequence);
              && Shelved(books, model.books[o.instrument := r.book], homes, Repr)
              && SubmitIndexed(o, r, result.restingOrder)
              && result.events == r.events && result.filled == r.filled && result.restingOrder.Handle? == r.rested
    {
      hide Sound, PointsInto, AllPoint, SubmitToBook, Shelved, Indexed, OthersShelved, OthersPoint, Keys;
      var s := o.instrument;
      SplitShelf(books, model.books, homes, Repr, s);
      SplitIndex(active, books, model.owner, homes, model.books, Repr, s);
      ghost var r, rest := SubmitToBook(model.books[s], o, sequence), Repr - homes[s];
      ghost var home;
      result, home := SubmitTo(books[s], o, sequence, model.books[s], homes[s], active);
      JoinShelf(books, model.books, homes, rest, s, books, r.book, home);
      SubmitIndex(active, books, homes, rest, s, home, r.filled, o.key, result.restingOrder, model.owner);
      homes, Repr := homes[s := home], rest + home;
    }

    /** A submit that passed the checks: to its book, then into the index. */
    method AcceptSubmit(o: SubmitOrder) returns (events: seq<Event>)
      requires Valid() && SubmitFault(o) == None && o.key !in model.owner
      modifies this, Repr
      ensures Valid() && fresh(Repr - old(Repr))
      ensures var x := SubmitStep(old(model), o);
              model == x.state && Response.Events(events) == x.response
    {
      hide Inv, SubmitToBook, Shelved, Indexed, Keys, BookOf, Wrap, Rests, SubmitStep;
      SubmitKeeps(model, o);
      NotResting(model, o.key, o.instrument);
      AcceptedSubmit(model, o);
      var s := o.instrument;
      var book := GetOrCreateBook(s);
      ghost var r := SubmitToBook(model.books[s], o, nextSequence);
      var result := SubmitToShelf(o, nextSequence);
      nextSequence := Wrap(nextSequence + 1);
      RecordSubmitResult(o, result);
      model := State(model.books[s := r.book],
                     if r.rested then (model.owner - Keys(r.filled))[o.key := s] else model.owner - Keys(r.filled),
                     nextSequence);
      events := result.events;
    }

    // ---------- update ----------

    method Update(u: UpdateOrder) returns (events: seq<Event>)
      requires Valid()
      modifies this, Repr
      ensures Valid() && fresh(Repr - old(Repr))
      ensures var x := UpdateStep(old(model), u);
              model == x.state && Response.Events(events) == x.response
    {
      hide Inv, Shelved, Sound, PointsInto, AllPoint, OthersPoint, OthersShelved, Indexed, UpdateInBook;
      SplitIndex(active, books, model.owner, homes, model.books, Repr, 0);
      match UpdateFault(u) {
        case Some(reason) =>
          return [UpdateRejected(u.key, reason)];
        case None =>
      }
      if u.key !in active {
        return [UpdateRejected(u.key, NotActive)];
      }
      events := AcceptUpdate(u);
    }

    /** The index after an update, by whether the order still rests. */
    ghost predicate UpdateIndexed(s: Uint32, key: Key, r: BookResult, handle: Handle)
      reads this, Repr
    {
      var kept, owners := active - Keys(r.filled), model.owner - Keys(r.filled);
      if r.rested
      then Indexed(kept[key := ActiveOrder(s, handle)], books, owners, homes, Repr)
      else Indexed(kept - {key}, books, owners - {key}, homes, Repr)
    }

    /** The order's book updates it; the other books and handles are left alone. */
    method UpdateOnShelf(s: Uint32, u: UpdateOrder, handle: Handle, sequence: Uint64) returns (result: UpdateResult)
      requires this !in Repr && s in books && s in model.books && 0 < u.size
      requires Shelved(books, model.books, homes, Repr) && Indexed(active, books, model.owner, homes, Repr)
      requires u.key in active && active[u.key] == ActiveOrder(s, handle)
      requires u.key !in UpdateInBook(s, model.books[s], HoldingSide(model.books[s], u.key), u, sequence).filled
      modifies this`homes, this`Repr, Repr
      ensures this !in Repr && fresh(Repr - old(Repr))
      ensures var r := UpdateInBook(s, model.books[s], HoldingSide(model.books[s], u.key), u, sequence);
              && r.applied && result.updated
              && Shelved(books, model.books[s := r.book], homes, Repr)
              && UpdateIndexed(s, u.key, r, result.restingOrder)
              && result.events == r.events && result.filled == r.filled && result.restingOrder.Handle? == r.rested
    {
      hide Sound, PointsInto, UpdateInBook, Shelved, Indexed, OthersShelved, OthersPoint, Keys, HoldingSide;
      SplitShelf(books, model.books, homes, Repr, s);
      SplitIndex(active, books, model.owner, homes, model.books, Repr, s);
      ghost var r, rest := UpdateInBook(s, model.books[s], HoldingSide(model.books[s], u.key), u, sequence),
          Repr - homes[s];
      ghost var home;
      result, home := UpdateIn(books[s], s, u, handle, sequence, model.books[s], homes[s], active);
      JoinShelf(books, model.books, homes, rest, s, books, r.book, home);
      UpdateIndex(active, books, homes, rest, s, home, r.filled, u.key, result.restingOrder, model.owner);
      homes, Repr := homes[s := home], rest + home;
    }

    /** An update of an active order: its book is never missing and never disowns the handle. */
    method AcceptUpdate(u: UpdateOrder) returns (events: seq<Event>)
      requires Valid() && UpdateFault(u) == None && u.key in active && u.key in model.owner
      modifies this, Repr
      ensures Valid() && fresh(Repr - old(Repr))
      ensures var x := UpdateStep(old(model), u);
              model == x.state && Response.Events(events) == x.response
    {
      hide Inv, UpdateInBook, Shelved, Indexed, Keys, Wrap, UpdateStep, HoldingSide;
      UpdateKeeps(model, u);
      AcceptedUpdate(model, u);
      ActiveFound(active, books, model, homes, Repr, u.key);
      var s, handle := active[u.key].instrument, active[u.key].handle;
      if s !in books {
        assert false;
      }
      ghost var r := UpdateInBook(s, model.books[s], HoldingSide(model.books[s], u.key), u, nextSequence);
      var result := UpdateOnShelf(s, u, handle, nextSequence);
      nextSequence := Wrap(nextSequence + 1);
      if !result.updated {
        assert false;
      }
      RecordUpdateResult(u.key, result);
      model := State(model.books[s := r.book],
                     if r.rested then model.owner - Keys(r.filled) else model.owner - Keys(r.filled) - {u.key},
                     nextSequence);
      events := result.events;
    }

    // ---------- cancel ----------

    method Cancel(key: Key) returns (events: seq<Event>)
      requires Valid()
      modifies this, Repr
      ensures Valid() && fresh(Repr - old(Repr))
      ensures var x := CancelStep(old(model), key);
              model == x.state && Response.Events(events) == x.response
    {
      hide Inv, Shelved, Sound, PointsInto, AllPoint, OthersPoint, OthersShelved, Indexed, CancelInBook;
      SplitIndex(active, books, model.owner, homes, model.books, Repr, 0);
      if key !in active {
        return [CancelRejected(key, NotActive)];
      }
      events := AcceptCancel(key);
    }

    method CancelOnShelf(s: Uint32, key: Key, handle: Handle) returns (result: CancelResult)
      requires this !in Repr && s in books && s in model.books
      requires Shelved(books, model.books, homes, Repr) && Indexed(active, books, model.owner, homes, Repr)
      requires key in active && active[key] == ActiveOrder(s, handle)
      modifies Repr
      ensures var r := CancelInBook(s, model.books[s], HoldingSide(model.books[s], key), key);
              && r.applied && result.cancelled && result.events == r.events
              && Shelved(books, model.books[s := r.book], homes, Repr)
              && Indexed(active - {key}, books, model.owner - {key}, homes, Repr)
    {
      hide Sound, PointsInto, CancelInBook, Shelved, Indexed, OthersShelved, OthersPoint, HoldingSide;
      SplitShelf(books, model.books, homes, Repr, s);
      SplitIndex(active, books, model.owner, homes, model.books, Repr, s);
      ghost var r, rest := CancelInBook(s, model.books[s], HoldingSide(model.books[s], key), key), Repr - homes[s];
      result := CancelIn(books[s], s, key, handle, model.books[s], homes[s], active);
      JoinShelf(books, model.books, homes, rest, s, books, r.book, homes[s]);
      JoinIndex(active, books, homes, rest, s, books, homes[s], {key}, active - {key}, model.owner - {key});
      assert homes[s := homes[s]] == homes && rest + homes[s] == Repr;
    }

    /** A cancel of an active order always succeeds. */
    method AcceptCancel(key: Key) returns (events: seq<Event>)
      requires Valid() && key in active && key in model.owner
      modifies this, Repr
      ensures Valid() && Repr == old(Repr)
      ensures var x := CancelStep(old(model), key);
              model == x.state && Response.Events(events) == x.response
    {
      hide Inv, CancelInBook, Shelved, Indexed, HoldingSide;
      CancelKeeps(model, key);
      ActiveFound(active, books, model, homes, Repr, key);
      var s, handle := active[key].instrument, active[key].handle;
      if s !in books {
        assert false;
      }
      ghost var r := CancelInBook(s, model.books[s], HoldingSide(model.books[s], key), key);
      var result := CancelOnShelf(s, key, handle);
      RecordCancelResult(key, result);
      model := State(model.books[s := r.book], model.owner - {key}, model.next);
      events := result.events;
    }
  }

  /** The index and the model's owners after an update: filled keys erased, the updated key kept or dropped. */
  lemma UpdateIndex(active: map<Key, ActiveOrder>, books: map<Uint32, OrderBook>, homes: map<Uint32, set<object>>,
                    rest: set<object>,
                    s: Uint32, home: set<object>, filled: seq<Key>, key: Key, handle: Handle,
                    owner: map<Key, Uint32>)
    requires s in books && OthersPoint(active, books, homes, s, rest)
             && AllPoint(active, books[s], s, Keys(filled) + {key}, home)
    requires active.Keys == owner.Keys && forall k :: k in active ==> active[k].instrument == owner[k]
    requires key in active && active[key].instrument == s && key !in filled
    requires handle.Handle? ==> PointsInto(ActiveOrder(s, handle), books[s], key, home)
    ensures var kept, owners := active - Keys(filled), owner - Keys(filled);
            if handle.Handle?
            then Indexed(kept[key := ActiveOrder(s, handle)], books, owners, homes[s := home], rest + home)
            else Indexed(kept - {key}, books, owners - {key}, homes[s := home], rest + home)
  {
    hide PointsInto, AllPoint, OthersPoint, Indexed;
    var kept, owners := active - Keys(filled), owner - Keys(filled);
    var gone := Keys(filled) + {key};
    if handle.Handle? {
      JoinIndex(active, books, homes, rest, s, books, home, gone, kept[key := ActiveOrder(s, handle)], owners);
    } else {
      JoinIndex(active, books, homes, rest, s, books, home, gone, kept - {key}, owners - {key});
    }
  }

  /** An active key's book exists, and is the book the model gives it. */
  lemma ActiveFound(active: map<Key, ActiveOrder>, books: map<Uint32, OrderBook>, st: State,
                    homes: map<Uint32, set<object>>, repr: set<object>, key: Key)
    requires Inv(st) && Shelved(books, st.books, homes, repr) && Indexed(active, books, st.owner, homes, repr)
    requires key in active
    ensures key in st.owner && st.owner[key] == active[key].instrument
    ensures active[key].instrument in books && active[key].instrument in st.books
  {
    hide Sound, AllPoint;
    OwnersHaveBooks(st);
  }

  lemma {:induction false} AcceptedUpdate(st: State, u: UpdateOrder)
    requires Inv(st) && UpdateFault(u) == None && u.key in st.owner
    ensures st.owner[u.key] in st.books
    ensures var s := st.owner[u.key];
            var r := UpdateInBook(s, st.books[s], HoldingSide(st.books[s], u.key), u, st.next);
            && r.applied && u.key !in r.filled
            && UpdateStep(st, u) == Outcome(State(st.books[s := r.book],
                                                  if r.rested then st.owner - Keys(r.filled)
                                                      else st.owner - Keys(r.filled) - {u.key},
                                                  Wrap(st.next + 1)),
                                            Response.Events(r.events))
  {
    hide BookInv, UpdateInBook, HoldingSide, Keys, Holds;
    ActiveRests(st, u.key);
    var s := st.owner[u.key];
    HoldingSideHolds(st.books[s], u.key);
    UpdateInBookKeeps(s, st.books[s], HoldingSide(st.books[s], u.key), u, st.next);
  }

  lemma AcceptedSubmit(st: State, o: SubmitOrder)
    requires SubmitFault(o) == None && o.key !in st.owner
    ensures var b := BookOf(st.books, o.instrument);
            var r := SubmitToBook(b, o, st.next);
            var owner := st.owner - Keys(r.filled);
            SubmitStep(st, o) == Outcome(State(st.books[o.instrument := b][o.instrument := r.book],
                                               if r.rested then owner[o.key := o.instrument] else owner,
                                               Wrap(st.next + 1)),
                                         Response.Events(r.events))
  {
  }

  lemma NotResting(st: State, k: Key, s: Uint32)
    requires Inv(st) && k !in st.owner
    ensures !Rests(BookOf(st.books, s), k)
  {
  }
}
