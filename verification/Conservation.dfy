/** Quantity is conserved: command by command, and so over every run. */
module Conservation {
  import opened Domain
  import opened PriceTime
  import opened PriceTimeFacts
  import opened MatchingSpec
  import opened MatchingInvariant

  function BookTotal(b: Book): nat {
    TotalOpen(b.bids) + TotalOpen(b.asks)
  }

  /** All quantity resting on a symbol. */
  function Resting(st: State, s: Uint32): nat {
    BookTotal(BookOf(st.books, s))
  }

  /** Quantity traded on a symbol, as the events report it. */
  function Reported(events: seq<Event>, s: Uint32): nat {
    if events == [] then 0
    else
      var first := if events[0].TradeExecuted? && events[0].instrument == s then events[0].size else 0;
      first + Reported(events[1..], s)
  }

  function OpenOf(b: Book, k: Key): nat {
    var q := b.Half(HoldingSide(b, k));
    var i := Find(q, k);
    if i < |q| then q[i].open else 0
  }

  function ReportedBy(r: Response, s: Uint32): nat {
    if r.Events? then Reported(r.events, s) else 0
  }

  /** What the command asks to add to symbol s: a submitted size, or the change an update makes. */
  function Entered(st: State, c: Command, s: Uint32): int {
    match c
    case Submit(o) =>
      if SubmitFault(o) == None && o.key !in st.owner && o.instrument == s then o.size else 0
    case Update(u) =>
      if UpdateFault(u) == None && u.key in st.owner && st.owner[u.key] == s
      then u.size - OpenOf(BookOf(st.books, s), u.key) else 0
    case _ => 0
  }

  function Cancelled(st: State, c: Command, s: Uint32): nat {
    if c.Cancel? && c.key in st.owner && st.owner[c.key] == s then OpenOf(BookOf(st.books, s), c.key) else 0
  }

  /** A market order loses what exceeds all the liquidity opposite. */
  function Expired(st: State, c: Command, s: Uint32): nat {
    if c.Submit? && c.submit.pricing.Market? && Entered(st, c, s) != 0 then
      var available := TotalOpen(BookOf(st.books, s).Half(Opposite(c.submit.direction)));
      if available < c.submit.size then c.submit.size - available else 0
    else 0
  }

  // ---------- one execution ----------

  lemma {:induction false} MarketTakesAll(q: seq<Order>, d: Side, open: Uint64)
    requires forall i :: 0 <= i < |q| ==> 0 < q[i].open
    ensures Greedy(q, d, Market, open).open == if TotalOpen(q) < open then open - TotalOpen(q) else 0
    decreases |q|
  {
    if open != 0 && q != [] && q[0].open <= open {
      MarketTakesAll(q[1..], d, open - q[0].open);
    }
  }

  lemma {:induction false} ExecuteConserves(b: Book, key: Key, d: Side, pricing: Pricing, size: Uint64,
                                            sequence: Uint64)
    ensures var x := Execute(b, key, d, pricing, size, sequence);
            BookTotal(x.book) == BookTotal(b) + size - 2 * Traded(x.fill.trades) - (if x.rested then 0 else x.fill.open)
  {
    hide Greedy, Join;
    var x := Execute(b, key, d, pricing, size, sequence);
    GreedyConserves(b.Half(Opposite(d)), d, pricing, size);
    if x.rested {
      TotalOpenJoin(d, b.Half(d), Order(key, d, pricing.price, x.fill.open, sequence));
    }
  }

  // ---------- what the events report ----------

  lemma {:induction false} ReportedConcat(a: seq<Event>, b: seq<Event>, s: Uint32)
    ensures Reported(a + b, s) == Reported(a, s) + Reported(b, s)
  {
    if a == [] {
      assert a + b == b;
    } else {
      assert (a + b)[1..] == a[1..] + b;
      ReportedConcat(a[1..], b, s);
    }
  }

  lemma {:induction false} ReportedOne(e: Event, s: Uint32)
    ensures !e.TradeExecuted? ==> Reported([e], s) == 0
  {
    assert [e][1..] == [];
  }

  lemma {:induction false} ReportedTrades(s: Uint32, key: Key, trades: seq<Trade>, x: Uint32)
    ensures Reported(TradeEvents(s, key, trades), x) == if s == x then Traded(trades) else 0
  {
    if trades != [] {
      ReportedTrades(s, key, trades[1..], x);
      assert TradeEvents(s, key, trades)[1..] == TradeEvents(s, key, trades[1..]);
    }
  }

  lemma {:induction false} ReportedTop(s: Uint32, d: Side, before: Option<LevelView>, after: Option<LevelView>,
                                       x: Uint32)
    ensures Reported(TopChange(s, d, before, after), x) == 0
  {
    ReportedOne(TopEvent(s, d, after), x);
  }

  lemma {:induction false} ReportedAccepted(s: Uint32, key: Key, head: Event, trades: seq<Trade>, x: Uint32,
                                            d: Side, p: Option<LevelView>, p': Option<LevelView>,
                                            d': Side, q: Option<LevelView>, q': Option<LevelView>)
    requires !head.TradeExecuted?
    ensures Reported([head] + TradeEvents(s, key, trades) + TopChange(s, d, p, p') + TopChange(s, d', q, q'), x)
         == if s == x then Traded(trades) else 0
  {
    hide TopChange, Traded;
    var t, a, b := TradeEvents(s, key, trades), TopChange(s, d, p, p'), TopChange(s, d', q, q');
    ReportedConcat([head] + t + a, b, x);
    ReportedConcat([head] + t, a, x);
    ReportedConcat([head], t, x);
    ReportedOne(head, x);
    ReportedTrades(s, key, trades, x);
    ReportedTop(s, d, p, p', x);
    ReportedTop(s, d', q, q', x);
  }

  // ---------- one command ----------

  /** The balance of one command on symbol s. */
  ghost predicate Balanced(st: State, c: Command, s: Uint32) {
    var x := Step(st, c);
    Resting(x.state, s) == Resting(st, s) + Entered(st, c, s)
                           - 2 * ReportedBy(x.response, s) - Cancelled(st, c, s) - Expired(st, c, s)
  }

  lemma {:induction false} SubmitBalanced(st: State, o: SubmitOrder, s: Uint32)
    requires Inv(st)
    ensures Balanced(st, Submit(o), s)
  {
    hide Top, TopChange, TradeEvents, Greedy, IndexAgrees, Uncrossed, Ranked, DistinctKeys;
    if SubmitFault(o) == None && o.key !in st.owner {
      var b := BookOf(st.books, o.instrument);
      var x := Execute(b, o.key, o.direction, o.pricing, o.size, st.next);
      ExecuteConserves(b, o.key, o.direction, o.pricing, o.size, st.next);
      ReportedAccepted(o.instrument, o.key, SubmitAccepted(o.key), x.fill.trades, s,
                       Buy, Top(b.bids), Top(x.book.bids), Sell, Top(b.asks), Top(x.book.asks));
      if o.pricing.Market? {
        MarketTakesAll(b.Half(Opposite(o.direction)), o.direction, o.size);
      }
    } else {
      ReportedOne(Step(st, Submit(o)).response.events[0], s);
    }
  }

  lemma {:induction false} UpdateBookBalanced(s: Uint32, b: Book, u: UpdateOrder, sequence: Uint64, x: Uint32)
    requires BookInv(b) && Rests(b, u.key) && 0 < u.size && u.pricing.Limit?
    ensures var r := UpdateInBook(s, b, HoldingSide(b, u.key), u, sequence);
            var traded := Reported(r.events, s);
            && r.applied
            && BookTotal(r.book) == BookTotal(b) + u.size - OpenOf(b, u.key) - 2 * traded
            && (x != s ==> Reported(r.events, x) == 0)
  {
    hide Top, TopChange, TradeEvents, Greedy, SideInv, Uncrossed;
    var d := HoldingSide(b, u.key);
    HoldingSideHolds(b, u.key);
    var own := b.Half(d);
    var i := Find(own, u.key);
    if ReducesInPlace(own[i], u) {
      TotalOpenResize(own, i, u.size);
      forall y: Uint32
        ensures Reported(UpdateInBook(s, b, d, u, sequence).events, y) == 0
      {
        var change := TopChange(s, d, Top(own), Top(Resized(own, i, u.size)));
        ReportedConcat([UpdateAccepted(u.key)], change, y);
        ReportedTop(s, d, Top(own), Top(Resized(own, i, u.size)), y);
        ReportedOne(UpdateAccepted(u.key), y);
      }
    } else {
      TotalOpenRemove(own, i);
      var b' := b.With(d, RemoveAt(own, i));
      var e := Execute(b', u.key, d, u.pricing, u.size, sequence);
      ExecuteConserves(b', u.key, d, u.pricing, u.size, sequence);
      var other := Opposite(d);
      ReportedAccepted(s, u.key, UpdateAccepted(u.key), e.fill.trades, s,
                       d, Top(own), Top(e.book.Half(d)), other, Top(b.Half(other)), Top(e.book.Half(other)));
      ReportedAccepted(s, u.key, UpdateAccepted(u.key), e.fill.trades, x,
                       d, Top(own), Top(e.book.Half(d)), other, Top(b.Half(other)), Top(e.book.Half(other)));
    }
  }

  lemma {:induction false} UpdateBalanced(st: State, u: UpdateOrder, s: Uint32)
    requires Inv(st)
    ensures Balanced(st, Update(u), s)
  {
    hide UpdateInBook, BookInv;
    if UpdateFault(u) == None && u.key in st.owner {
      ActiveRests(st, u.key);
      var x := st.owner[u.key];
      UpdateBookBalanced(x, st.books[x], u, st.next, s);
    } else {
      ReportedOne(Step(st, Update(u)).response.events[0], s);
    }
  }

  lemma {:induction false} CancelBalanced(st: State, k: Key, s: Uint32)
    requires Inv(st)
    ensures Balanced(st, Cancel(k), s)
  {
    hide Top, TopChange, SideInv, Uncrossed;
    if k in st.owner {
      ActiveRests(st, k);
      var x := st.owner[k];
      var b := st.books[x];
      var d := HoldingSide(b, k);
      HoldingSideHolds(b, k);
      var own := b.Half(d);
      var i := Find(own, k);
      TotalOpenRemove(own, i);
      ReportedConcat([OrderCancelled(k)], TopChange(x, d, Top(own), Top(RemoveAt(own, i))), s);
      ReportedTop(x, d, Top(own), Top(RemoveAt(own, i)), s);
      ReportedOne(OrderCancelled(k), s);
    } else {
      ReportedOne(Step(st, Cancel(k)).response.events[0], s);
    }
  }

  lemma {:induction false} StepBalanced(st: State, c: Command, s: Uint32)
    requires Inv(st)
    ensures Balanced(st, c, s)
  {
    match c
    case Submit(o) => SubmitBalanced(st, o, s);
    case Update(u) => UpdateBalanced(st, u, s);
    case Cancel(k) => CancelBalanced(st, k, s);
    case Snapshot(_, _) =>
  }

  // ---------- whole runs ----------

  datatype Ledger = Ledger(entered: int, traded: nat, cancelled: nat, expired: nat)

  /** The run's books for one symbol, summed command by command. */
  function RunLedger(st: State, commands: seq<Command>, s: Uint32): Ledger
    decreases |commands|
  {
    if commands == [] then Ledger(0, 0, 0, 0)
    else
      var c := commands[0];
      var x := Step(st, c);
      var l := RunLedger(x.state, commands[1..], s);
      Ledger(l.entered + Entered(st, c, s), l.traded + ReportedBy(x.response, s),
             l.cancelled + Cancelled(st, c, s), l.expired + Expired(st, c, s))
  }

  lemma {:induction false} RunBalanced(st: State, commands: seq<Command>, s: Uint32)
    requires Inv(st)
    ensures var l := RunLedger(st, commands, s);
            Resting(st, s) + l.entered == 2 * l.traded + l.cancelled + l.expired + Resting(RunState(st, commands), s)
    decreases |commands|
  {
    if commands != [] {
      StepBalanced(st, commands[0], s);
      StepKeeps(st, commands[0]);
      RunBalanced(Step(st, commands[0]).state, commands[1..], s);
    }
  }

  /**
   From an empty engine: everything entered was traded (once on each side), cancelled,
   expired, or still rests.
   */
  lemma QuantityConserved(commands: seq<Command>, s: Uint32)
    ensures var l := RunLedger(INITIAL, commands, s);
            l.entered == 2 * l.traded + l.cancelled + l.expired + Resting(RunState(INITIAL, commands), s)
  {
    RunBalanced(INITIAL, commands, s);
  }
}
