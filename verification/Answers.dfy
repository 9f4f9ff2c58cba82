/**
 What every command is answered, event by event, and what it leaves in its book: said
 over the engine's step with the commands' own fields, and over any fill that has the
 properties of price-time matching.
 */
module Answers {
  import opened Domain
  import opened PriceTime
  import opened PriceTimeFacts
  import opened MatchingSpec
  import opened MatchingInvariant
  import opened MatchingTheorems

  // ---------- refusals ----------

  /** A refused submit is answered by one rejection, with its own key and the first reason that applies. */
  lemma {:induction false} RefusedSubmit(st: State, o: SubmitOrder)
    requires !Acceptable(st, Submit(o))
    ensures var x := Step(st, Submit(o));
            && x.state == st
            && x.response == Events([SubmitRejected(o.key,
                 if o.key.user == 0 then ZeroUser
                 else if o.key.clientOrder == 0 then ZeroClientOrder
                 else if o.instrument == 0 then ZeroSymbol
                 else if o.size == 0 then ZeroSize
                 else KeyAlreadyActive)])
  {
  }

  lemma {:induction false} RefusedUpdate(st: State, u: UpdateOrder)
    requires !Acceptable(st, Update(u))
    ensures var x := Step(st, Update(u));
            && x.state == st
            && x.response == Events([UpdateRejected(u.key,
                 if u.key.user == 0 then ZeroUser
                 else if u.key.clientOrder == 0 then ZeroClientOrder
                 else if u.size == 0 then ZeroSize
                 else if u.pricing == Market then PricingNotLimit
                 else NotActive)])
  {
  }

  lemma {:induction false} RefusedCancel(st: State, k: Key)
    requires !Acceptable(st, Cancel(k))
    ensures Step(st, Cancel(k)) == Outcome(st, Events([CancelRejected(k, NotActive)]))
  {
  }

  // ---------- the shape of an answer ----------

  /**
   First the acceptance, then one event a trade in order, then at most one update a side
   of this book, that of side `d` before that of the other.
   */
  ghost predicate Shape(events: seq<Event>, head: Event, s: Uint32, aggressor: Key, trades: seq<Trade>, d: Side) {
    var n := |trades|;
    && n < |events| <= n + 3 && events[0] == head
    && (forall i :: 0 <= i < n ==>
          events[i + 1] == TradeExecuted(aggressor, trades[i].resting, s, trades[i].price, trades[i].size))
    && (forall i :: n < i < |events| ==> events[i].BookUpdated? && events[i].instrument == s)
    && (|events| == n + 3 ==> events[n + 1].direction == d && events[n + 2].direction != d)
  }

  lemma {:induction false} ChangeShape(s: Uint32, d: Side, before: Option<LevelView>, after: Option<LevelView>)
    ensures var e := TopChange(s, d, before, after);
            |e| <= 1 && forall i :: 0 <= i < |e| ==> e[i].BookUpdated? && e[i].instrument == s && e[i].direction == d
  {
  }

  lemma {:induction false} AcceptedShape(head: Event, s: Uint32, key: Key, trades: seq<Trade>, d: Side,
                                         p: Option<LevelView>, p': Option<LevelView>,
                                         q: Option<LevelView>, q': Option<LevelView>)
    ensures Shape([head] + TradeEvents(s, key, trades) + TopChange(s, d, p, p') + TopChange(s, Opposite(d), q, q'),
                  head, s, key, trades, d)
  {
    hide TopChange;
    var t, a, b := TradeEvents(s, key, trades), TopChange(s, d, p, p'), TopChange(s, Opposite(d), q, q');
    var e, n := [head] + t + a + b, |trades|;
    ChangeShape(s, d, p, p');
    ChangeShape(s, Opposite(d), q, q');
    forall i | 0 <= i < n
      ensures e[i + 1] == TradeExecuted(key, trades[i].resting, s, trades[i].price, trades[i].size)
    {
      TradeEventAt(s, key, trades, i);
      assert e[i + 1] == t[i];
    }
    assert forall i :: n < i < |e| ==> e[i] == (a + b)[i - n - 1];
  }

  // ---------- what is left in the book ----------

  /** q' is q with o put behind every order at its price or better and before every worse one. */
  ghost predicate Joined(d: Side, q: seq<Order>, o: Order, q': seq<Order>) {
    exists k :: 0 <= k <= |q| && q' == q[..k] + [o] + q[k..]
      && (forall j :: 0 <= j < k ==> q[j].price == o.price || Ahead(d, q[j].price, o.price))
      && (forall j :: k <= j < |q| ==> Ahead(d, o.price, q[j].price))
  }

  /** q' is q without the order of key k. */
  ghost predicate Without(q: seq<Order>, k: Key, q': seq<Order>) {
    exists i :: 0 <= i < |q| && q[i].key == k && q' == q[..i] + q[i + 1..]
  }

  /** The aggressor's own side: as it was, with the remainder of a limit order joined to it. */
  ghost predicate Settles(d: Side, own: seq<Order>, key: Key, pricing: Pricing, open: Uint64, sequence: Uint64,
                          own': seq<Order>) {
    if pricing.Limit? && open > 0
    then Joined(d, own, Order(key, d, pricing.price, open, sequence), own')
    else own' == own
  }

  lemma {:induction false} JoinIsJoined(d: Side, q: seq<Order>, o: Order)
    requires Ranked(d, q)
    ensures Joined(d, q, o, Join(d, q, o))
  {
    var k := Slot(d, q, o.price);
    forall j | k <= j < |q|
      ensures Ahead(d, o.price, q[j].price)
    {
      assert j > k ==> !Ahead(d, q[j].price, q[k].price);
    }
  }

  /** Matching and resting, for whatever fill has the properties of price-time matching. */
  lemma {:induction false} ExecuteSettles(b: Book, key: Key, d: Side, pricing: Pricing, size: Uint64, sequence: Uint64,
                                          f: Fill)
    requires BookInv(b) && IsFill(b.Half(Opposite(d)), d, pricing, size, f)
    ensures var x := Execute(b, key, d, pricing, size, sequence);
            && x.fill == f && x.book.Half(Opposite(d)) == f.rest
            && Settles(d, b.Half(d), key, pricing, f.open, sequence, x.book.Half(d))
  {
    hide IsFill, Greedy, Joined, Join, Uncrossed, Ranked, DistinctKeys;
    FillIsGreedy(b.Half(Opposite(d)), d, pricing, size, f);
    if pricing.Limit? && f.open > 0 {
      SideRanked(d, b);
      JoinIsJoined(d, b.Half(d), Order(key, d, pricing.price, f.open, sequence));
    }
  }

  lemma SideRanked(d: Side, b: Book)
    requires BookInv(b)
    ensures Ranked(d, b.Half(d))
  {
  }

  // ---------- commands that are taken ----------

  /** A submit: its own acceptance, the fill's trades, bid before ask; the fill's leavings and its own remainder. */
  lemma {:induction false} TakenSubmit(st: State, o: SubmitOrder, f: Fill)
    requires Inv(st) && Acceptable(st, Submit(o))
    requires IsFill(BookOf(st.books, o.instrument).Half(Opposite(o.direction)), o.direction, o.pricing, o.size, f)
    ensures var x := Step(st, Submit(o));
            var d, b, b' := o.direction, BookOf(st.books, o.instrument), BookOf(x.state.books, o.instrument);
            && x.response.Events?
            && Shape(x.response.events, SubmitAccepted(o.key), o.instrument, o.key, f.trades, Buy)
            && b'.Half(Opposite(d)) == f.rest
            && Settles(d, b.Half(d), o.key, o.pricing, f.open, st.next, b'.Half(d))
  {
    hide Inv, BookInv, IsFill, Execute, Top, TopChange, TradeEvents, Shape, Settles, Wrap;
    var b := BookOf(st.books, o.instrument);
    InvBook(st, o.instrument);
    ExecuteSettles(b, o.key, o.direction, o.pricing, o.size, st.next, f);
    var x := Execute(b, o.key, o.direction, o.pricing, o.size, st.next);
    AcceptedShape(SubmitAccepted(o.key), o.instrument, o.key, f.trades, Buy,
                  Top(b.bids), Top(x.book.bids), Top(b.asks), Top(x.book.asks));
  }

  /** An update that changes the price or grows the order: out of its queue, and in again as the aggressor. */
  lemma {:induction false} TakenReplacement(st: State, u: UpdateOrder, own: seq<Order>, f: Fill)
    requires Inv(st) && Acceptable(st, Update(u))
    requires var o := RestingOrder(st, u.key); u.pricing != Limit(o.price) || u.size > o.open
    requires var b, d := BookOf(st.books, st.owner[u.key]), RestingOrder(st, u.key).direction;
             Without(b.Half(d), u.key, own) && IsFill(b.Half(Opposite(d)), d, u.pricing, u.size, f)
    ensures var x := Step(st, Update(u));
            var s, d := st.owner[u.key], RestingOrder(st, u.key).direction;
            var b' := BookOf(x.state.books, s);
            && x.response.Events?
            && Shape(x.response.events, UpdateAccepted(u.key), s, u.key, f.trades, d)
            && b'.Half(Opposite(d)) == f.rest
            && Settles(d, own, u.key, u.pricing, f.open, st.next, b'.Half(d))
  {
    hide IsFill, Execute, Top, TopChange, TradeEvents, Shape, Settles, Uncrossed, Ranked, IndexAgrees, Wrap, Holds;
    ActiveRests(st, u.key);
    var s := st.owner[u.key];
    var b := st.books[s];
    var d := HoldingSide(b, u.key);
    HoldingSideHolds(b, u.key);
    var i := Find(b.Half(d), u.key);
    assert RestingOrder(st, u.key).direction == d;
    WithoutIs(b.Half(d), u.key, i, own);
    var c := b.With(d, RemoveAt(b.Half(d), i));
    RemovalKeeps(b, d, i);
    assert c.Half(Opposite(d)) == b.Half(Opposite(d)) && c.Half(d) == own;
    ExecuteSettles(c, u.key, d, u.pricing, u.size, st.next, f);
    var x := Execute(c, u.key, d, u.pricing, u.size, st.next);
    AcceptedShape(UpdateAccepted(u.key), s, u.key, f.trades, d, Top(b.Half(d)), Top(x.book.Half(d)),
                  Top(b.Half(Opposite(d))), Top(x.book.Half(Opposite(d))));
  }

  /** With distinct keys there is one way to leave an order out. */
  lemma WithoutIs(q: seq<Order>, k: Key, i: nat, q': seq<Order>)
    requires DistinctKeys(q) && i < |q| && q[i].key == k && Without(q, k, q')
    ensures q' == RemoveAt(q, i)
  {
  }

  /** Any other update: its acceptance and at most the update of its own side; `ReduceKeepsPlaces` says the rest. */
  lemma {:induction false} TakenReduction(st: State, u: UpdateOrder)
    requires Inv(st) && Acceptable(st, Update(u))
    requires var o := RestingOrder(st, u.key); u.pricing == Limit(o.price) && u.size <= o.open
    ensures var x := Step(st, Update(u));
            && x.response.Events? && OwnSideOnly(x.response.events, UpdateAccepted(u.key), st.owner[u.key],
                                                 RestingOrder(st, u.key).direction)
  {
    hide Execute, Top, Uncrossed, Ranked, IndexAgrees, Wrap, Holds;
    ActiveRests(st, u.key);
    HoldingSideHolds(st.books[st.owner[u.key]], u.key);
  }

  /** The acceptance and at most one book update, of this side. */
  ghost predicate OwnSideOnly(events: seq<Event>, head: Event, s: Uint32, d: Side) {
    && 1 <= |events| <= 2 && events[0] == head
    && (|events| == 2 ==> events[1].BookUpdated? && events[1].instrument == s && events[1].direction == d)
  }

  /** A cancel: the order leaves its queue, nothing else moves, and at most its own side is reported. */
  lemma {:induction false} TakenCancel(st: State, k: Key)
    requires Inv(st) && k in st.owner
    ensures var x := Step(st, Cancel(k));
            var s, d := st.owner[k], RestingOrder(st, k).direction;
            var b, b' := BookOf(st.books, s), BookOf(x.state.books, s);
            && x.response.Events? && OwnSideOnly(x.response.events, OrderCancelled(k), s, d)
            && Without(b.Half(d), k, b'.Half(d)) && b'.Half(Opposite(d)) == b.Half(Opposite(d))
  {
    hide Top, Uncrossed, Ranked, IndexAgrees, Holds;
    ActiveRests(st, k);
    var b := st.books[st.owner[k]];
    HoldingSideHolds(b, k);
    var d := HoldingSide(b, k);
    assert Find(b.Half(d), k) < |b.Half(d)|;
  }

  /** There always is such a fill: the taken commands above have exactly one outcome. */
  lemma FillExists(st: State, s: Uint32, d: Side, pricing: Pricing, size: Uint64)
    requires Inv(st)
    ensures exists f :: IsFill(BookOf(st.books, s).Half(Opposite(d)), d, pricing, size, f)
  {
    hide IsFill;
    InvBook(st, s);
    GreedyIsFill(BookOf(st.books, s).Half(Opposite(d)), d, pricing, size);
  }

  /** In numbers: no trade is worse than the limit, and what is left over either way does not meet it. */
  lemma {:induction false} FillWithinLimit(q: seq<Order>, d: Side, pricing: Pricing, size: Uint64, f: Fill, i: nat)
    requires IsFill(q, d, pricing, size, f)
    ensures i < |f.trades| && pricing.Limit? && d == Buy ==> f.trades[i].price <= pricing.price
    ensures i < |f.trades| && pricing.Limit? && d == Sell ==> pricing.price <= f.trades[i].price
    ensures f.open > 0 && f.rest != [] ==> pricing.Limit?
    ensures f.open > 0 && f.rest != [] && d == Buy ==> pricing.price < f.rest[0].price
    ensures f.open > 0 && f.rest != [] && d == Sell ==> f.rest[0].price < pricing.price
  {
    if i < |f.trades| {
      assert f.trades[i].price == q[i].price && Crosses(d, pricing, q[i].price);
    }
  }
}
