/** What every reachable engine state and every command promise. */
module MatchingTheorems {
  import opened Domain
  import opened PriceTime
  import opened PriceTimeFacts
  import opened MatchingSpec
  import opened MatchingInvariant

  // ---------- events ----------

  lemma {:induction false} TradeEventAt(s: Uint32, key: Key, trades: seq<Trade>, i: nat)
    requires i < |trades|
    ensures TradeEvents(s, key, trades)[i]
         == TradeExecuted(key, trades[i].resting, s, trades[i].price, trades[i].size)
  {
    if i > 0 {
      TradeEventAt(s, key, trades[1..], i - 1);
    }
  }

  /** A rejection that only a broken index could cause. */
  predicate InternalRejection(e: Event) {
    || (e.UpdateRejected? && (e.reason == BookMissing || e.reason == BookInconsistent))
    || (e.CancelRejected? && e.reason == BookMissing)
  }

  /** Nothing in the events of an accepted order is an internal rejection. */
  lemma {:induction false} AcceptedEventsClean(s: Uint32, key: Key, head: Event, trades: seq<Trade>, a: seq<Event>,
                                               b: seq<Event>)
    requires !InternalRejection(head)
    requires forall e :: e in a ==> e.BookUpdated?
    requires forall e :: e in b ==> e.BookUpdated?
    ensures forall e :: e in [head] + TradeEvents(s, key, trades) + a + b ==> !InternalRejection(e)
  {
    forall e | e in TradeEvents(s, key, trades)
      ensures e.TradeExecuted?
    {
      var i :| 0 <= i < |trades| && TradeEvents(s, key, trades)[i] == e;
      TradeEventAt(s, key, trades, i);
    }
  }

  /**
   "Order book is missing" and "order book is inconsistent" never happen, and the
   cancel of an active order always succeeds.
   */
  lemma {:induction false} NoInternalRejection(st: State, c: Command)
    requires Inv(st) && !c.Snapshot?
    ensures forall e :: e in Step(st, c).response.events ==> !InternalRejection(e)
    ensures c.Cancel? ==>
      (c.key in st.owner <==> OrderCancelled(c.key) in Step(st, c).response.events)
  {
    hide Inv, SubmitToBook, UpdateInBook, CancelInBook;
    match c
    case Submit(o) =>
      if SubmitFault(o) == None && o.key !in st.owner {
        SubmitClean(st, o);
      }
    case Update(u) =>
      if UpdateFault(u) == None && u.key in st.owner {
        UpdateClean(st, u);
      }
    case Cancel(k) =>
      if k in st.owner {
        CancelClean(st, k);
      }
  }

  lemma {:induction false} SubmitClean(st: State, o: SubmitOrder)
    requires SubmitFault(o) == None && o.key !in st.owner
    ensures forall e :: e in SubmitStep(st, o).response.events ==> !InternalRejection(e)
  {
    hide Execute, Top;
    var b := BookOf(st.books, o.instrument);
    var x := Execute(b, o.key, o.direction, o.pricing, o.size, st.next);
    AcceptedEventsClean(o.instrument, o.key, SubmitAccepted(o.key), x.fill.trades,
                        TopChange(o.instrument, Buy, Top(b.bids), Top(x.book.bids)),
                        TopChange(o.instrument, Sell, Top(b.asks), Top(x.book.asks)));
  }

  lemma {:induction false} CancelClean(st: State, k: Key)
    requires Inv(st) && k in st.owner
    ensures OrderCancelled(k) in CancelStep(st, k).response.events
    ensures forall e :: e in CancelStep(st, k).response.events ==> !InternalRejection(e)
  {
    hide BookInv, Top;
    ActiveRests(st, k);
    HoldingSideHolds(st.books[st.owner[k]], k);
    assert CancelStep(st, k).response.events[0] == OrderCancelled(k);
  }

  lemma {:induction false} UpdateClean(st: State, u: UpdateOrder)
    requires Inv(st) && UpdateFault(u) == None && u.key in st.owner
    ensures forall e :: e in UpdateStep(st, u).response.events ==> !InternalRejection(e)
  {
    hide BookInv, SideInv, Execute, Top;
    ActiveRests(st, u.key);
    var s := st.owner[u.key];
    var b := st.books[s];
    var d := HoldingSide(b, u.key);
    HoldingSideHolds(b, u.key);
    UpdateInBookKeeps(s, b, d, u, st.next);
    var i := Find(b.Half(d), u.key);
    if !ReducesInPlace(b.Half(d)[i], u) {
      var x := Execute(b.With(d, RemoveAt(b.Half(d), i)), u.key, d, u.pricing, u.size, st.next);
      AcceptedEventsClean(s, u.key, UpdateAccepted(u.key), x.fill.trades,
                          TopChange(s, d, Top(b.Half(d)), Top(x.book.Half(d))),
                          TopChange(s, Opposite(d), Top(b.Half(Opposite(d))), Top(x.book.Half(Opposite(d)))));
    }
  }

  /** The same over whole runs from an empty engine. */
  lemma RunsNeverRejectInternally(commands: seq<Command>, c: Command)
    requires !c.Snapshot?
    ensures var st := RunState(INITIAL, commands);
            && (forall e :: e in Step(st, c).response.events ==> !InternalRejection(e))
            && (c.Cancel? ==> (c.key in st.owner <==> OrderCancelled(c.key) in Step(st, c).response.events))
  {
    EveryRunKeeps(commands);
    NoInternalRejection(RunState(INITIAL, commands), c);
  }

  // ---------- acceptance ----------

  /** A command that the engine must take, said without its checks' order. */
  predicate Acceptable(st: State, c: Command) {
    match c
    case Submit(o) => o.key.user > 0 && o.key.clientOrder > 0 && o.instrument > 0 && o.size > 0 && o.key !in st.owner
    case Update(u) => u.key.user > 0 && u.key.clientOrder > 0 && u.size > 0 && u.pricing.Limit? && u.key in st.owner
    case Cancel(k) => k in st.owner
    case Snapshot(_, _) => false
  }

  predicate Accepts(e: Event) {
    e.SubmitAccepted? || e.UpdateAccepted? || e.OrderCancelled?
  }

  /**
   The first event says whether the command was taken; a refused command answers with
   that one event and leaves no trace; a submit or update that is taken uses up exactly
   one sequence number, a cancel none, and a cancelled key is free again.
   */
  lemma {:induction false} AcceptedIffAcceptable(st: State, c: Command)
    requires Inv(st) && !c.Snapshot?
    ensures Answered(st, c, Step(st, c))
  {
    hide Inv, Step, Answered;
    match c
    case Submit(o) => SubmitAnswered(st, o);
    case Update(u) => UpdateAnswered(st, u);
    case Cancel(k) => CancelAnswered(st, k);
  }

  /** How a command is answered, and what it uses up. */
  ghost predicate Answered(st: State, c: Command, x: Outcome) {
    && x.response.Events? && x.response.events != []
    && (Accepts(x.response.events[0]) <==> Acceptable(st, c))
    && (!Acceptable(st, c) ==> |x.response.events| == 1 && x.state == st)
    && (Acceptable(st, c) ==> x.state.next == if c.Cancel? then st.next else Wrap(st.next + 1))
    && (Acceptable(st, c) && c.Cancel? ==> x.state.owner == st.owner - {c.key})
  }

  lemma {:induction false} SubmitAnswered(st: State, o: SubmitOrder)
    requires Inv(st)
    ensures Answered(st, Submit(o), Step(st, Submit(o)))
  {
    hide Inv, Execute, Top, TopChange, TradeEvents, Wrap;
  }

  lemma {:induction false} UpdateAnswered(st: State, u: UpdateOrder)
    requires Inv(st)
    ensures Answered(st, Update(u), Step(st, Update(u)))
  {
    hide BookInv, Execute, Top, TopChange, TradeEvents, Wrap, Rests;
    if Acceptable(st, Update(u)) {
      ActiveRests(st, u.key);
      HoldingSideHolds(st.books[st.owner[u.key]], u.key);
    }
  }

  lemma {:induction false} CancelAnswered(st: State, k: Key)
    requires Inv(st)
    ensures Answered(st, Cancel(k), Step(st, Cancel(k)))
  {
    hide BookInv, Top, TopChange, Rests;
    if k in st.owner {
      ActiveRests(st, k);
      HoldingSideHolds(st.books[st.owner[k]], k);
    }
  }

  /**
   A taken order rests in its book exactly when it is a limit order with open size left,
   and is active exactly then; of the other orders exactly the filled ones left the book.
   */
  lemma {:induction false} RestsIffLimitRemains(st: State, o: SubmitOrder, k: Key)
    requires Inv(st) && Acceptable(st, Submit(o))
    ensures var before := BookOf(st.books, o.instrument);
            var f := Greedy(before.Half(Opposite(o.direction)), o.direction, o.pricing, o.size);
            var st' := Step(st, Submit(o)).state;
            var after := BookOf(st'.books, o.instrument);
            && (Rests(after, o.key) <==> o.pricing.Limit? && 0 < f.open)
            && (o.key in st'.owner <==> Rests(after, o.key))
            && (k != o.key ==> (Rests(after, k) <==> Rests(before, k) && k !in f.filled))
  {
    hide SideInv, Uncrossed, Greedy, Join, Top, TopChange, TradeEvents, Holds;
    var before := BookOf(st.books, o.instrument);
    StepKeeps(st, Submit(o));
    assert BookInv(before) by {
      EmptyBookInv();
    }
    NewKeyRests(st, o);
    ExecuteKey(before, o.key, o.direction, o.pricing, o.size, st.next, o.key);
    ExecuteKey(before, o.key, o.direction, o.pricing, o.size, st.next, k);
    SidesOf(before, o.direction, o.key);
    SidesOf(before, o.direction, k);
    var after := Execute(before, o.key, o.direction, o.pricing, o.size, st.next).book;
    SidesOf(after, o.direction, o.key);
    SidesOf(after, o.direction, k);
  }

  lemma EmptyBookInv()
    ensures BookInv(Book([], []))
  {
  }

  lemma NewKeyRests(st: State, o: SubmitOrder)
    requires Inv(st) && o.key !in st.owner
    ensures !Rests(BookOf(st.books, o.instrument), o.key)
  {
  }

  lemma SidesOf(b: Book, d: Side, k: Key)
    ensures Rests(b, k) <==> Holds(b.Half(d), k) || Holds(b.Half(Opposite(d)), k)
  {
  }

  // ---------- what an execution trades ----------

  /** Every trade is with another order of the opposite side, at its price, for a positive size. */
  lemma {:induction false} TradesAreFair(b: Book, key: Key, d: Side, pricing: Pricing, size: Uint64, sequence: Uint64,
                                         i: nat)
    requires BookInv(b) && !Rests(b, key)
    requires i < |Execute(b, key, d, pricing, size, sequence).fill.trades|
    ensures var f := Execute(b, key, d, pricing, size, sequence).fill;
            var q := b.Half(Opposite(d));
            && i < |q| && f.trades[i].resting == q[i].key && f.trades[i].resting != key
            && f.trades[i].price == q[i].price && Crosses(d, pricing, q[i].price)
            && 0 < f.trades[i].size <= q[i].open
            && (i + 1 < |f.trades| ==> f.trades[i].size == q[i].open && i < |f.filled| && f.filled[i] == q[i].key)
            && |f.filled| <= |f.trades| <= |f.filled| + 1
  {
    var q := b.Half(Opposite(d));
    GreedyIsFill(q, d, pricing, size);
    assert Holds(q, q[i].key);
  }

  // ---------- isolation ----------

  /** The symbol a command works on, if it reaches a book. */
  function Target(st: State, c: Command): Option<Uint32> {
    match c
    case Submit(o) => Some(o.instrument)
    case Update(u) => if u.key in st.owner then Some(st.owner[u.key]) else None
    case Cancel(k) => if k in st.owner then Some(st.owner[k]) else None
    case Snapshot(s, depth) => None
  }

  /** A command leaves every book but its target's exactly as it was. */
  lemma OtherBooksUnchanged(st: State, c: Command, s: Uint32)
    requires Target(st, c) != Some(s)
    ensures BookOf(Step(st, c).state.books, s) == BookOf(st.books, s)
    ensures s in Step(st, c).state.books <==> s in st.books
  {
  }

  // ---------- time priority ----------

  /** Orders at one price stand in the order of their sequence numbers, all below `next`. */
  ghost predicate Aged(q: seq<Order>, next: int) {
    && (forall i :: 0 <= i < |q| ==> q[i].sequence < next)
    && (forall i, j :: 0 <= i < j < |q| && q[i].price == q[j].price ==> q[i].sequence < q[j].sequence)
  }

  ghost predicate BookAged(b: Book, next: int) {
    Aged(b.bids, next) && Aged(b.asks, next)
  }

  /** The queues of every book are in order of age, all below `next`. */
  ghost predicate AgedBelow(st: State, next: int) {
    forall s: Uint32 :: BookAged(BookOf(st.books, s), next)
  }

  /** The same below the engine's own counter: so it is until the counter wraps. */
  ghost predicate StateAged(st: State) {
    AgedBelow(st, st.next)
  }

  /** The command uses up a sequence number. */
  predicate Numbers(st: State, c: Command) {
    Acceptable(st, c) && !c.Cancel?
  }

  /** How many sequence numbers a run uses up. */
  function NumbersUsed(st: State, commands: seq<Command>): nat
    decreases |commands|
  {
    if commands == [] then 0
    else (if Numbers(st, commands[0]) then 1 else 0) + NumbersUsed(Step(st, commands[0]).state, commands[1..])
  }

  /** What a fill leaves are the last orders of the queue, each with its own price and age. */
  lemma {:induction false} FillLeavesTail(q: seq<Order>, f: Fill)
    requires FillsPrefix(q, f) && CutsNext(q, f)
    ensures |f.filled| + |f.rest| == |q|
    ensures forall i :: 0 <= i < |f.rest| ==>
      f.rest[i].sequence == q[|f.filled| + i].sequence && f.rest[i].price == q[|f.filled| + i].price
  {
  }

  lemma {:induction false} GreedyAged(q: seq<Order>, d: Side, pricing: Pricing, open: Uint64, next: int)
    requires Aged(q, next) && forall i :: 0 <= i < |q| ==> 0 < q[i].open
    ensures Aged(Greedy(q, d, pricing, open).rest, next)
  {
    hide Greedy, FillsPrefix, CutsNext, CrossingPrefix, Exhausts, Traded;
    GreedyIsFill(q, d, pricing, open);
    FillLeavesTail(q, Greedy(q, d, pricing, open));
  }

  /** The newest order joins behind every order at its price. */
  lemma {:induction false} JoinAged(d: Side, q: seq<Order>, o: Order, next: int)
    requires Aged(q, next) && Ranked(d, q) && o.sequence == next
    ensures Aged(Join(d, q, o), next + 1)
  {
    var k := Slot(d, q, o.price);
    var r := Join(d, q, o);
    forall i | 0 <= i < |r|
      ensures r[i] == if i == k then o else q[if i < k then i else i - 1]
    {
    }
    forall m | k <= m < |q|
      ensures q[m].price != o.price
    {
      assert m > k ==> !Ahead(d, q[m].price, q[k].price);
    }
  }

  lemma {:induction false} RemoveAged(q: seq<Order>, k: nat, next: int)
    requires Aged(q, next) && k < |q|
    ensures Aged(RemoveAt(q, k), next)
  {
    var r := RemoveAt(q, k);
    assert forall i :: 0 <= i < |r| ==> r[i] == q[if i < k then i else i + 1];
  }

  lemma {:induction false} ExecuteAged(b: Book, key: Key, d: Side, pricing: Pricing, size: Uint64, sequence: Uint64)
    requires BookAged(b, sequence) && SideInv(Buy, b.bids) && SideInv(Sell, b.asks)
    ensures BookAged(Execute(b, key, d, pricing, size, sequence).book, sequence + 1)
  {
    GreedyAged(b.Half(Opposite(d)), d, pricing, size, sequence);
    var x := Execute(b, key, d, pricing, size, sequence);
    if x.rested {
      JoinAged(d, b.Half(d), Order(key, d, pricing.price, x.fill.open, sequence), sequence);
    }
  }

  lemma {:induction false} UpdateAged(s: Uint32, b: Book, d: Side, u: UpdateOrder, sequence: Uint64)
    requires BookInv(b) && BookAged(b, sequence) && 0 < u.size
    ensures BookAged(UpdateInBook(s, b, d, u, sequence).book, sequence + 1)
  {
    hide Execute, TradeEvents, Uncrossed, Top, TopChange, Aged;
    var i := Find(b.Half(d), u.key);
    if i < |b.Half(d)| {
      ResizeAged(b.Half(d), i, u.size, sequence);
      OlderStaysOlder(b.With(d, Resized(b.Half(d), i, u.size)), sequence, sequence + 1);
    }
    OlderStaysOlder(b, sequence, sequence + 1);
    if i < |b.Half(d)| && !ReducesInPlace(b.Half(d)[i], u) {
      RemoveAged(b.Half(d), i, sequence);
      RemoveKeeps(d, b.Half(d), i);
      ExecuteAged(b.With(d, RemoveAt(b.Half(d), i)), u.key, d, u.pricing, u.size, sequence);
    }
  }

  lemma ResizeAged(q: seq<Order>, k: nat, size: Uint64, next: int)
    requires Aged(q, next) && k < |q|
    ensures Aged(Resized(q, k, size), next)
  {
  }

  lemma OlderStaysOlder(b: Book, next: int, later: int)
    requires BookAged(b, next) && next <= later
    ensures BookAged(b, later)
  {
  }

  /** A command keeps time priority as long as the number it gives out, if it does, is the next one unwrapped. */
  lemma {:induction false} StepAged(st: State, c: Command, next: int)
    requires Inv(st) && AgedBelow(st, next) && (Numbers(st, c) ==> st.next == next)
    ensures AgedBelow(Step(st, c).state, if Numbers(st, c) then next + 1 else next)
  {
    hide Inv, BookAged;
    var t := Step(st, c).state;
    forall s: Uint32
      ensures BookAged(BookOf(t.books, s), if Numbers(st, c) then next + 1 else next)
    {
      StepBookAged(st, c, next, s);
    }
  }

  lemma {:induction false} StepBookAged(st: State, c: Command, next: int, s: Uint32)
    requires Inv(st) && AgedBelow(st, next) && (Numbers(st, c) ==> st.next == next)
    ensures BookAged(BookOf(Step(st, c).state.books, s), if Numbers(st, c) then next + 1 else next)
  {
    hide Execute, UpdateInBook, Uncrossed, IndexAgrees, Aged;
    var b := BookOf(st.books, s);
    assert BookAged(b, next);
    OlderStaysOlder(b, next, next + 1);
    if Target(st, c) == Some(s) {
      match c
      case Submit(o) =>
        if Numbers(st, c) {
          ExecuteAged(b, o.key, o.direction, o.pricing, o.size, next);
        }
      case Update(u) =>
        if Numbers(st, c) && s in st.books {
          UpdateAged(s, b, HoldingSide(b, u.key), u, next);
        }
      case Cancel(k) =>
        var d := HoldingSide(b, k);
        var i := Find(b.Half(d), k);
        if i < |b.Half(d)| {
          RemoveAged(b.Half(d), i, next);
        }
    } else {
      OtherBooksUnchanged(st, c, s);
    }
  }

  /** What a command does to the counter. */
  lemma NextNumber(st: State, c: Command)
    requires Inv(st)
    ensures Step(st, c).state.next == if Numbers(st, c) then Wrap(st.next + 1) else st.next
  {
    hide Inv, SubmitStep, UpdateStep, CancelStep;
    if !c.Snapshot? {
      AcceptedIffAcceptable(st, c);
    }
  }

  lemma {:induction false} RunAged(st: State, commands: seq<Command>, next: nat)
    requires Inv(st) && AgedBelow(st, next) && st.next == Wrap(next)
    requires next + NumbersUsed(st, commands) <= WORD
    ensures AgedBelow(RunState(st, commands), next + NumbersUsed(st, commands))
    decreases |commands|
  {
    hide Inv, Step, AgedBelow, Numbers;
    if commands != [] {
      var c := commands[0];
      var next' := if Numbers(st, c) then next + 1 else next;
      StepKeeps(st, c);
      StepAged(st, c, next);
      NextNumber(st, c);
      RunAged(Step(st, c).state, commands[1..], next');
    }
  }

  /** Strictly better price, or the same price and strictly earlier. */
  predicate Precedes(d: Side, a: Order, b: Order) {
    Ahead(d, a.price, b.price) || (a.price == b.price && a.sequence < b.sequence)
  }

  /**
   Over any run that uses up at most the 2^64 - 1 positive sequence numbers every queue is
   strictly in price-time order, so matching, which takes it from the front, honours priority.
   */
  lemma {:induction false} RunsKeepPriority(commands: seq<Command>, s: Uint32, d: Side, i: nat, j: nat)
    requires NumbersUsed(INITIAL, commands) <= WORD - 1
    requires i < j < |BookOf(RunState(INITIAL, commands).books, s).Half(d)|
    ensures var q := BookOf(RunState(INITIAL, commands).books, s).Half(d);
            Precedes(d, q[i], q[j])
  {
    hide RunState, NumbersUsed;
    var st := RunState(INITIAL, commands);
    EveryRunKeeps(commands);
    InitialAged();
    RunAged(INITIAL, commands, 1);
    var b := BookOf(st.books, s);
    assert BookAged(b, 1 + NumbersUsed(INITIAL, commands)) && BookInv(b);
    assert !Ahead(d, b.Half(d)[j].price, b.Half(d)[i].price);
  }

  lemma InitialAged()
    ensures Inv(INITIAL) && AgedBelow(INITIAL, 1)
  {
  }

  /** The resting order that an active key stands for. */
  function RestingOrder(st: State, k: Key): (o: Order)
    requires Inv(st) && k in st.owner
    ensures o.key == k && o in BookOf(st.books, st.owner[k]).Half(o.direction)
  {
    ActiveRests(st, k);
    var b := st.books[st.owner[k]];
    HoldingSideHolds(b, k);
    var q := b.Half(HoldingSide(b, k));
    q[Find(q, k)]
  }

  /**
   An update at the order's own price that does not grow it changes one open size and
   nobody's place, price, key or age.
   */
  lemma {:induction false} ReduceKeepsPlaces(st: State, u: UpdateOrder)
    requires Inv(st) && Acceptable(st, Update(u))
    requires var o := RestingOrder(st, u.key); u.pricing == Limit(o.price) && u.size <= o.open
    ensures var s, d := st.owner[u.key], RestingOrder(st, u.key).direction;
            var b, b' := BookOf(st.books, s), BookOf(Step(st, Update(u)).state.books, s);
            var q, q' := b.Half(d), b'.Half(d);
            && b'.Half(Opposite(d)) == b.Half(Opposite(d))
            && |q'| == |q|
            && (forall i :: 0 <= i < |q| ==> q'[i] == if q[i].key == u.key then q[i].(open := u.size) else q[i])
  {
    hide Ranked, Uncrossed, IndexAgrees, Execute, ReplaceInBook, Top, TopChange, TradeEvents, Holds;
    ActiveRests(st, u.key);
    var b := st.books[st.owner[u.key]];
    HoldingSideHolds(b, u.key);
    assert DistinctKeys(b.Half(HoldingSide(b, u.key)));
  }
}
