/** An update that is not done in place is a cancel followed by a fresh submit. */
module Replacement {
  import opened Domain
  import opened PriceTime
  import opened MatchingSpec
  import opened MatchingInvariant
  import opened MatchingTheorems

  function TradesOf(events: seq<Event>): seq<Event> {
    if events == [] then []
    else (if events[0].TradeExecuted? then [events[0]] else []) + TradesOf(events[1..])
  }

  lemma {:induction false} TradesOfConcat(a: seq<Event>, b: seq<Event>)
    ensures TradesOf(a + b) == TradesOf(a) + TradesOf(b)
  {
    if a == [] {
      assert a + b == b;
    } else {
      assert (a + b)[1..] == a[1..] + b;
      TradesOfConcat(a[1..], b);
      var head := if a[0].TradeExecuted? then [a[0]] else [];
      assert TradesOf(a + b) == head + (TradesOf(a[1..]) + TradesOf(b));
      assert TradesOf(a) == head + TradesOf(a[1..]);
    }
  }

  lemma {:induction false} TradesOfTrades(s: Uint32, key: Key, trades: seq<Trade>)
    ensures TradesOf(TradeEvents(s, key, trades)) == TradeEvents(s, key, trades)
  {
    if trades != [] {
      TradesOfTrades(s, key, trades[1..]);
      assert TradeEvents(s, key, trades)[1..] == TradeEvents(s, key, trades[1..]);
    }
  }

  lemma TradesOfNone(e: Event)
    requires !e.TradeExecuted?
    ensures TradesOf([e]) == []
  {
    assert [e][1..] == [];
  }

  lemma {:induction false} TradesOfAccepted(head: Event, s: Uint32, key: Key, trades: seq<Trade>,
                                            d: Side, p: Option<LevelView>, p': Option<LevelView>,
                                            d': Side, q: Option<LevelView>, q': Option<LevelView>)
    requires !head.TradeExecuted?
    ensures TradesOf([head] + TradeEvents(s, key, trades) + TopChange(s, d, p, p') + TopChange(s, d', q, q'))
         == TradeEvents(s, key, trades)
  {
    var t, a, b := TradeEvents(s, key, trades), TopChange(s, d, p, p'), TopChange(s, d', q, q');
    TradesOfConcat([head] + t + a, b);
    TradesOfConcat([head] + t, a);
    TradesOfConcat([head], t);
    TradesOfNone(head);
    TradesOfNone(TopEvent(s, d, p'));
    TradesOfNone(TopEvent(s, d', q'));
    TradesOfTrades(s, key, trades);
  }

  /** The submit that an update of an active order amounts to. */
  function Resubmission(st: State, u: UpdateOrder): SubmitOrder
    requires u.key in st.owner && st.owner[u.key] in st.books
  {
    var s := st.owner[u.key];
    SubmitOrder(u.key, s, HoldingSide(st.books[s], u.key), u.pricing, u.size)
  }

  /** Same books, active keys, counter and trades. */
  ghost predicate SameEffect(st: State, u: UpdateOrder)
    requires Inv(st) && u.key in st.owner
  {
    ActiveRests(st, u.key);
    var updated := Step(st, Update(u));
    var resubmitted := Step(Step(st, Cancel(u.key)).state, Submit(Resubmission(st, u)));
    && updated.state == resubmitted.state
    && TradesOf(updated.response.events) == TradesOf(resubmitted.response.events)
  }

  /** An update that changes the price or grows the order is a cancel and a fresh submit. */
  lemma {:induction false} ReplaceIsResubmit(st: State, u: UpdateOrder)
    requires Inv(st) && Acceptable(st, Update(u))
    requires var o := RestingOrder(st, u.key); u.pricing != Limit(o.price) || u.size > o.open
    ensures SameEffect(st, u)
  {
    hide Execute, Top, TopChange, TradeEvents, BookInv, TradesOf, Holds;
    ActiveRests(st, u.key);
    var s := st.owner[u.key];
    var b := st.books[s];
    var d := HoldingSide(b, u.key);
    HoldingSideHolds(b, u.key);
    var i := Find(b.Half(d), u.key);
    var b' := b.With(d, RemoveAt(b.Half(d), i));
    var x := Execute(b', u.key, d, u.pricing, u.size, st.next);
    UpdateInBookKeeps(s, b, d, u, st.next);
    var other := Opposite(d);
    TradesOfAccepted(UpdateAccepted(u.key), s, u.key, x.fill.trades,
                     d, Top(b.Half(d)), Top(x.book.Half(d)), other, Top(b.Half(other)), Top(x.book.Half(other)));
    TradesOfAccepted(SubmitAccepted(u.key), s, u.key, x.fill.trades,
                     Buy, Top(b'.bids), Top(x.book.bids), Sell, Top(b'.asks), Top(x.book.asks));
    var resubmitted := Step(Step(st, Cancel(u.key)).state, Submit(Resubmission(st, u)));
    var updated := Step(st, Update(u));
    assert updated.state.books == resubmitted.state.books;
    assert updated.state.owner == resubmitted.state.owner;
  }

  /** Resubmitting at the resting price crosses nothing and goes to the back with a new sequence number. */
  lemma {:induction false} ResubmitAtSamePriceRests(b: Book, d: Side, i: nat, key: Key, size: Uint64, sequence: Uint64)
    requires BookInv(b) && i < |b.Half(d)| && 0 < size
    ensures var p := b.Half(d)[i].price;
            var x := Execute(b.With(d, RemoveAt(b.Half(d), i)), key, d, Limit(p), size, sequence);
            x.rested && Order(key, d, p, size, sequence) in x.book.Half(d)
  {
    hide RemoveAt, SideInv;
    var own, p := RemoveAt(b.Half(d), i), b.Half(d)[i].price;
    var o := Order(key, d, p, size, sequence);
    var q := b.Half(Opposite(d));
    assert q != [] ==> !Crosses(d, Limit(p), q[0].price);
    assert Join(d, own, o)[Slot(d, own, p)] == o;
  }

  lemma {:induction false} ReduceIsNotResubmit(st: State, u: UpdateOrder)
    requires Inv(st) && StateAged(st) && Acceptable(st, Update(u))
    requires var o := RestingOrder(st, u.key); u.pricing == Limit(o.price) && u.size <= o.open
    ensures !SameEffect(st, u)
  {
    hide Execute, Top, TopChange, TradeEvents, TradesOf, Holds, Uncrossed, Ranked, Live;
    ActiveRests(st, u.key);
    var s := st.owner[u.key];
    var b := st.books[s];
    var d := HoldingSide(b, u.key);
    HoldingSideHolds(b, u.key);
    var q := b.Half(d);
    var i := Find(q, u.key);
    ResubmitAtSamePriceRests(b, d, i, u.key, u.size, st.next);
    assert BookAged(BookOf(st.books, s), st.next);
    var q' := Resized(q, i, u.size);
    assert UpdateStep(st, u).state.books[s].Half(d) == q';
    forall j | 0 <= j < |q'|
      ensures q'[j] != Order(u.key, d, q[i].price, u.size, st.next)
    {
      assert q'[j].sequence == q[j].sequence < st.next;
    }
    var x := Execute(b.With(d, RemoveAt(q, i)), u.key, d, u.pricing, u.size, st.next);
    assert Step(Step(st, Cancel(u.key)).state, Submit(Resubmission(st, u))).state.books[s] == x.book;
  }

  /** On a state whose counter has not wrapped, it is one exactly when it changes the price or grows the order. */
  lemma UpdateIsResubmitIffNotInPlace(st: State, u: UpdateOrder)
    requires Inv(st) && StateAged(st) && Acceptable(st, Update(u))
    ensures var o := RestingOrder(st, u.key);
            SameEffect(st, u) <==> u.pricing != Limit(o.price) || u.size > o.open
  {
    var o := RestingOrder(st, u.key);
    if u.pricing == Limit(o.price) && u.size <= o.open {
      ReduceIsNotResubmit(st, u);
    } else {
      ReplaceIsResubmit(st, u);
    }
  }
}
