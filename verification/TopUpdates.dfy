/** The updates an engine emits always tell where the top of each book is now. */
module TopUpdates {
  import opened Domain
  import opened PriceTime
  import opened MatchingSpec
  import opened MatchingInvariant
  import opened Codec
  import opened FeedEncoders
  import opened Views

  /** Both tops of one book, as a subscriber sees them. */
  datatype Tops = Tops(bid: Option<Level>, ask: Option<Level>)

  function LevelOf(top: Option<LevelView>): Option<Level> {
    match top
    case None => None
    case Some(l) => Some(Level(l.price, l.totalSize))
  }

  function TopsOf(st: State, s: Uint32): Tops {
    var b := BookOf(st.books, s);
    Tops(LevelOf(Top(b.bids)), LevelOf(Top(b.asks)))
  }

  /** The tops after one more update. */
  function Told(t: Tops, s: Uint32, u: BookUpdate): Tops {
    if u.instrument != s then t
    else if u.direction == Buy then t.(bid := LevelIn(u))
    else t.(ask := LevelIn(u))
  }

  function ToldAll(t: Tops, s: Uint32, updates: seq<BookUpdate>): Tops
    decreases |updates|
  {
    if updates == [] then t else ToldAll(Told(t, s, updates[0]), s, updates[1..])
  }

  lemma {:induction false} ToldConcat(t: Tops, s: Uint32, a: seq<BookUpdate>, b: seq<BookUpdate>)
    ensures ToldAll(t, s, a + b) == ToldAll(ToldAll(t, s, a), s, b)
    decreases |a|
  {
    if a == [] {
      assert a + b == b;
    } else {
      assert (a + b)[1..] == a[1..] + b;
      ToldConcat(Told(t, s, a[0]), s, a[1..], b);
    }
  }

  function EventsIn(r: Response): seq<Event> {
    if r.Events? then r.events else []
  }

  // ---------- the updates of one command ----------

  lemma {:induction false} NoUpdatesInTrades(s: Uint32, key: Key, trades: seq<Trade>)
    ensures Updates(TradeEvents(s, key, trades)) == []
  {
    if trades != [] {
      NoUpdatesInTrades(s, key, trades[1..]);
      assert TradeEvents(s, key, trades)[1..] == TradeEvents(s, key, trades[1..]);
    }
  }

  lemma NoUpdateIn(e: Event)
    requires !e.BookUpdated?
    ensures Updates([e]) == []
  {
    assert [e][1..] == [];
  }

  /** The updates a change of top emits: none, or the new top. */
  function ChangeUpdates(s: Uint32, d: Side, before: Option<LevelView>, after: Option<LevelView>): seq<BookUpdate> {
    if before == after then [] else [ToBookUpdate(TopEvent(s, d, after))]
  }

  lemma UpdatesInChange(s: Uint32, d: Side, before: Option<LevelView>, after: Option<LevelView>)
    ensures Updates(TopChange(s, d, before, after)) == ChangeUpdates(s, d, before, after)
  {
    if before != after {
      assert [TopEvent(s, d, after)][1..] == [];
    }
  }

  lemma {:induction false} UpdatesInAccepted(head: Event, s: Uint32, key: Key, trades: seq<Trade>,
                                             d: Side, p: Option<LevelView>, p': Option<LevelView>,
                                             d': Side, q: Option<LevelView>, q': Option<LevelView>)
    requires !head.BookUpdated?
    ensures Updates([head] + TradeEvents(s, key, trades) + TopChange(s, d, p, p') + TopChange(s, d', q, q'))
         == ChangeUpdates(s, d, p, p') + ChangeUpdates(s, d', q, q')
  {
    hide TopChange, ChangeUpdates, Updates, TradeEvents;
    var t, a, b := TradeEvents(s, key, trades), TopChange(s, d, p, p'), TopChange(s, d', q, q');
    UpdatesConcat([head] + t + a, b);
    UpdatesConcat([head] + t, a);
    UpdatesConcat([head], t);
    NoUpdateIn(head);
    NoUpdatesInTrades(s, key, trades);
    UpdatesInChange(s, d, p, p');
    UpdatesInChange(s, d', q, q');
  }

  /** The updates of one command: at most one per side of its book, carrying the new top. */
  ghost predicate TellsTops(st: State, st': State, s: Uint32, updates: seq<BookUpdate>) {
    var b, b' := BookOf(st.books, s), BookOf(st'.books, s);
    || updates == ChangeUpdates(s, Buy, Top(b.bids), Top(b'.bids)) + ChangeUpdates(s, Sell, Top(b.asks), Top(b'.asks))
    || updates == ChangeUpdates(s, Sell, Top(b.asks), Top(b'.asks)) + ChangeUpdates(s, Buy, Top(b.bids), Top(b'.bids))
  }

  lemma {:induction false} SubmitTells(st: State, o: SubmitOrder)
    requires Inv(st) && SubmitFault(o) == None && o.key !in st.owner
    ensures TellsTops(st, SubmitStep(st, o).state, o.instrument, Updates(EventsIn(SubmitStep(st, o).response)))
  {
    hide Top, TopChange, TradeEvents, Execute, Inv, ChangeUpdates;
    var b := BookOf(st.books, o.instrument);
    var x := Execute(b, o.key, o.direction, o.pricing, o.size, st.next);
    UpdatesInAccepted(SubmitAccepted(o.key), o.instrument, o.key, x.fill.trades,
                      Buy, Top(b.bids), Top(x.book.bids), Sell, Top(b.asks), Top(x.book.asks));
  }

  lemma {:induction false} UpdateTells(st: State, u: UpdateOrder)
    requires Inv(st) && UpdateFault(u) == None && u.key in st.owner
    ensures TellsTops(st, UpdateStep(st, u).state, st.owner[u.key], Updates(EventsIn(UpdateStep(st, u).response)))
  {
    hide Top, TopChange, TradeEvents, Execute, BookInv, ChangeUpdates, HoldingSide, Holds;
    ActiveRests(st, u.key);
    var s := st.owner[u.key];
    var b := st.books[s];
    var d := HoldingSide(b, u.key);
    HoldingSideHolds(b, u.key);
    UpdateInBookKeeps(s, b, d, u, st.next);
    var own := b.Half(d);
    var i := Find(own, u.key);
    if ReducesInPlace(own[i], u) {
      var own' := Resized(own, i, u.size);
      UpdatesConcat([UpdateAccepted(u.key)], TopChange(s, d, Top(own), Top(own')));
      NoUpdateIn(UpdateAccepted(u.key));
      UpdatesInChange(s, d, Top(own), Top(own'));
      NoChange(s, Opposite(d), Top(b.Half(Opposite(d))), ChangeUpdates(s, d, Top(own), Top(own')));
    } else {
      var x := Execute(b.With(d, RemoveAt(own, i)), u.key, d, u.pricing, u.size, st.next);
      var other := Opposite(d);
      UpdatesInAccepted(UpdateAccepted(u.key), s, u.key, x.fill.trades,
                        d, Top(own), Top(x.book.Half(d)), other, Top(b.Half(other)), Top(x.book.Half(other)));
    }
  }

  lemma NoChange(s: Uint32, d: Side, top: Option<LevelView>, updates: seq<BookUpdate>)
    ensures updates == updates + ChangeUpdates(s, d, top, top) == ChangeUpdates(s, d, top, top) + updates
  {
  }

  lemma {:induction false} CancelTells(st: State, k: Key)
    requires Inv(st) && k in st.owner
    ensures TellsTops(st, CancelStep(st, k).state, st.owner[k], Updates(EventsIn(CancelStep(st, k).response)))
  {
    hide Top, TopChange, BookInv, ChangeUpdates, HoldingSide, Holds;
    ActiveRests(st, k);
    var s := st.owner[k];
    var b := st.books[s];
    var d := HoldingSide(b, k);
    HoldingSideHolds(b, k);
    var own := b.Half(d);
    var i := Find(own, k);
    var own' := RemoveAt(own, i);
    UpdatesConcat([OrderCancelled(k)], TopChange(s, d, Top(own), Top(own')));
    NoUpdateIn(OrderCancelled(k));
    UpdatesInChange(s, d, Top(own), Top(own'));
    NoChange(s, Opposite(d), Top(b.Half(Opposite(d))), ChangeUpdates(s, d, Top(own), Top(own')));
  }

  lemma {:induction false} ChangeTold(t: Tops, s: Uint32, d: Side, before: Option<LevelView>, after: Option<LevelView>)
    requires (if d == Buy then t.bid else t.ask) == LevelOf(before)
    ensures ToldAll(t, s, ChangeUpdates(s, d, before, after))
         == if d == Buy then t.(bid := LevelOf(after)) else t.(ask := LevelOf(after))
  {
    if before != after {
      var u := ToBookUpdate(TopEvent(s, d, after));
      assert ChangeUpdates(s, d, before, after)[1..] == [];
      assert LevelIn(u) == LevelOf(after);
    }
  }

  lemma {:induction false} ToldElsewhere(t: Tops, s: Uint32, updates: seq<BookUpdate>)
    requires forall i :: 0 <= i < |updates| ==> updates[i].instrument != s
    ensures ToldAll(t, s, updates) == t
    decreases |updates|
  {
    if updates != [] {
      assert updates[0].instrument != s;
      ToldElsewhere(t, s, updates[1..]);
    }
  }

  lemma {:induction false} TellsIsTold(st: State, st': State, s: Uint32, updates: seq<BookUpdate>, x: Uint32)
    requires TellsTops(st, st', s, updates)
    requires x != s ==> BookOf(st'.books, x) == BookOf(st.books, x)
    ensures ToldAll(TopsOf(st, x), x, updates) == TopsOf(st', x)
  {
    hide Top, LevelOf;
    var b, b' := BookOf(st.books, s), BookOf(st'.books, s);
    var buy, sell := ChangeUpdates(s, Buy, Top(b.bids), Top(b'.bids)),
        ChangeUpdates(s, Sell, Top(b.asks), Top(b'.asks));
    if x == s {
      var t := TopsOf(st, s);
      ChangeTold(t, s, Buy, Top(b.bids), Top(b'.bids));
      ChangeTold(t, s, Sell, Top(b.asks), Top(b'.asks));
      ChangeTold(t.(bid := LevelOf(Top(b'.bids))), s, Sell, Top(b.asks), Top(b'.asks));
      ChangeTold(t.(ask := LevelOf(Top(b'.asks))), s, Buy, Top(b.bids), Top(b'.bids));
      ToldConcat(t, s, buy, sell);
      ToldConcat(t, s, sell, buy);
    } else {
      ToldElsewhere(TopsOf(st, x), x, updates);
    }
  }

  /** A command that does not reach a book emits no update and changes no book. */
  lemma {:induction false} QuietStep(st: State, c: Command)
    requires Inv(st)
    requires match c
             case Submit(o) => SubmitFault(o) != None || o.key in st.owner
             case Update(u) => UpdateFault(u) != None || u.key !in st.owner
             case Cancel(k) => k !in st.owner
             case Snapshot(_, _) => true
    ensures Updates(EventsIn(Step(st, c).response)) == [] && Step(st, c).state == st
  {
    match c
    case Submit(o) => NoUpdateIn(SubmitStep(st, o).response.events[0]);
    case Update(u) => NoUpdateIn(UpdateStep(st, u).response.events[0]);
    case Cancel(k) => NoUpdateIn(CancelStep(st, k).response.events[0]);
    case Snapshot(_, _) =>
  }

  /** The symbol whose tops a command may move. */
  function Reached(st: State, c: Command): Option<Uint32> {
    match c
    case Submit(o) => if SubmitFault(o) == None && o.key !in st.owner then Some(o.instrument) else None
    case Update(u) => if UpdateFault(u) == None && u.key in st.owner then Some(st.owner[u.key]) else None
    case Cancel(k) => if k in st.owner then Some(st.owner[k]) else None
    case Snapshot(_, _) => None
  }

  lemma {:induction false} StepTells(st: State, c: Command)
    requires Inv(st)
    ensures match Reached(st, c)
            case None => Updates(EventsIn(Step(st, c).response)) == [] && Step(st, c).state == st
            case Some(s) =>
              && TellsTops(st, Step(st, c).state, s, Updates(EventsIn(Step(st, c).response)))
              && (forall x :: x != s ==> BookOf(Step(st, c).state.books, x) == BookOf(st.books, x))
  {
    hide Inv, TellsTops;
    if Reached(st, c) == None {
      QuietStep(st, c);
    } else {
      match c
      case Submit(o) => SubmitTells(st, o);
      case Update(u) => UpdateTells(st, u);
      case Cancel(k) => CancelTells(st, k);
      case Snapshot(_, _) => assert false;
    }
  }

  /** The last update of a side always equals that side's current top, for every symbol. */
  lemma {:induction false} StepTold(st: State, c: Command, x: Uint32)
    requires Inv(st)
    ensures ToldAll(TopsOf(st, x), x, Updates(EventsIn(Step(st, c).response))) == TopsOf(Step(st, c).state, x)
  {
    hide Inv, Step, TellsTops, Top;
    StepTells(st, c);
    match Reached(st, c)
    case None =>
    case Some(s) => TellsIsTold(st, Step(st, c).state, s, Updates(EventsIn(Step(st, c).response)), x);
  }

  // ---------- runs ----------

  /** All events of a run, in order. */
  function EventsOf(st: State, commands: seq<Command>): seq<Event>
    decreases |commands|
  {
    if commands == [] then []
    else EventsIn(Step(st, commands[0]).response) + EventsOf(Step(st, commands[0]).state, commands[1..])
  }

  lemma {:induction false} RunTold(st: State, commands: seq<Command>, s: Uint32)
    requires Inv(st)
    ensures ToldAll(TopsOf(st, s), s, Updates(EventsOf(st, commands))) == TopsOf(RunState(st, commands), s)
    decreases |commands|
  {
    hide Inv, Step, TopsOf;
    if commands != [] {
      var st' := Step(st, commands[0]).state;
      StepKeeps(st, commands[0]);
      StepTold(st, commands[0], s);
      RunTold(st', commands[1..], s);
      UpdatesConcat(EventsIn(Step(st, commands[0]).response), EventsOf(st', commands[1..]));
      ToldConcat(TopsOf(st, s), s, Updates(EventsIn(Step(st, commands[0]).response)),
                 Updates(EventsOf(st', commands[1..])));
    }
  }

  lemma {:induction false} RunConcat(st: State, a: seq<Command>, b: seq<Command>)
    ensures RunState(st, a + b) == RunState(RunState(st, a), b)
    ensures EventsOf(st, a + b) == EventsOf(st, a) + EventsOf(RunState(st, a), b)
    decreases |a|
  {
    hide Step;
    if a == [] {
      assert a + b == b;
    } else {
      assert (a + b)[1..] == a[1..] + b;
      RunConcat(Step(st, a[0]).state, a[1..], b);
    }
  }

  // ---------- what can be published ----------

  /** The true sum of the best level; the engine keeps it modulo 2^64. */
  function BestSum(q: seq<Order>): nat {
    TotalOpen(q[..Run(q)])
  }

  /** The engine's total for the best level is not zero by wrap-around. */
  predicate Publishable(q: seq<Order>) {
    q == [] || BestSum(q) % WORD != 0
  }

  /** A top can be encoded exactly when its level's true sum is not a positive multiple of 2^64. */
  lemma {:induction false} PublishableIff(s: Uint32, d: Side, q: seq<Order>)
    requires s != 0 && SideInv(d, q)
    ensures Canonical(ToBookUpdate(TopEvent(s, d, Top(q)))) <==> Publishable(q)
    ensures q != [] && BestSum(q) < WORD ==> Publishable(q) && BestLevel(q).totalSize == BestSum(q)
  {
    if q != [] {
      assert q[..Run(q)][0] == q[0];
    }
  }

  /** Every top the command moves can be published. */
  ghost predicate StepPublishable(st: State, c: Command) {
    var st' := Step(st, c).state;
    forall s: Uint32, d: Side ::
      Top(BookOf(st'.books, s).Half(d)) != Top(BookOf(st.books, s).Half(d)) ==>
        Publishable(BookOf(st'.books, s).Half(d))
  }

  ghost predicate RunPublishable(st: State, commands: seq<Command>)
    decreases |commands|
  {
    commands != [] ==> StepPublishable(st, commands[0]) && RunPublishable(Step(st, commands[0]).state, commands[1..])
  }

  lemma {:induction false} ChangeCanonicalIff(s: Uint32, d: Side, before: Option<LevelView>, q: seq<Order>)
    requires s != 0 && SideInv(d, q)
    ensures AllCanonical(ChangeUpdates(s, d, before, Top(q))) <==> (Top(q) != before ==> Publishable(q))
  {
    hide SideInv, Canonical, Publishable, Top;
    PublishableIff(s, d, q);
    if before != Top(q) {
      assert ChangeUpdates(s, d, before, Top(q))[0] == ToBookUpdate(TopEvent(s, d, Top(q)));
    }
  }

  lemma AllCanonicalConcat(a: seq<BookUpdate>, b: seq<BookUpdate>)
    ensures AllCanonical(a + b) <==> AllCanonical(a) && AllCanonical(b)
  {
    assert forall i :: 0 <= i < |a| ==> (a + b)[i] == a[i];
    assert forall i :: 0 <= i < |b| ==> (a + b)[|a| + i] == b[i];
  }

  lemma {:induction false} TellsCanonicalIff(st: State, st': State, s: Uint32, updates: seq<BookUpdate>)
    requires TellsTops(st, st', s, updates) && s != 0 && BookInv(BookOf(st'.books, s))
    ensures AllCanonical(updates) <==>
            forall d: Side :: Top(BookOf(st'.books, s).Half(d)) != Top(BookOf(st.books, s).Half(d)) ==>
              Publishable(BookOf(st'.books, s).Half(d))
  {
    hide SideInv, AllCanonical, Publishable, Top, Uncrossed;
    var b, b' := BookOf(st.books, s), BookOf(st'.books, s);
    var buy, sell := ChangeUpdates(s, Buy, Top(b.bids), Top(b'.bids)),
        ChangeUpdates(s, Sell, Top(b.asks), Top(b'.asks));
    ChangeCanonicalIff(s, Buy, Top(b.bids), b'.bids);
    ChangeCanonicalIff(s, Sell, Top(b.asks), b'.asks);
    AllCanonicalConcat(buy, sell);
    AllCanonicalConcat(sell, buy);
    assert b'.Half(Buy) == b'.bids && b'.Half(Sell) == b'.asks && b.Half(Buy) == b.bids && b.Half(Sell) == b.asks;
  }

  lemma {:induction false} StepCanonicalIff(st: State, c: Command)
    requires Inv(st)
    ensures AllCanonical(Updates(EventsIn(Step(st, c).response))) <==> StepPublishable(st, c)
  {
    hide Step, BookInv, AllCanonical, Publishable, Top, TellsTops;
    StepTells(st, c);
    StepKeeps(st, c);
    match Reached(st, c)
    case None => NothingToEncode();
    case Some(s) =>
      var st' := Step(st, c).state;
      ReachedNonZero(st, c, s);
      InvBook(st', s);
      TellsCanonicalIff(st, st', s, Updates(EventsIn(Step(st, c).response)));
  }

  lemma NothingToEncode()
    ensures AllCanonical([])
  {
  }

  lemma {:induction false} ReachedNonZero(st: State, c: Command, s: Uint32)
    requires Inv(st) && Reached(st, c) == Some(s)
    ensures s != 0
  {
    match c
    case Update(u) => ActiveRests(st, u.key);
    case Cancel(k) => ActiveRests(st, k);
    case _ =>
  }

  /** Every update of a run can be encoded exactly when no top it moves has wrapped to zero. */
  lemma {:induction false} RunCanonicalIff(st: State, commands: seq<Command>)
    requires Inv(st)
    ensures AllCanonical(Updates(EventsOf(st, commands))) <==> RunPublishable(st, commands)
    decreases |commands|
  {
    hide Inv, Step, AllCanonical, StepPublishable;
    if commands == [] {
      NothingToEncode();
    } else {
      var st' := Step(st, commands[0]).state;
      var first, rest := EventsIn(Step(st, commands[0]).response), EventsOf(st', commands[1..]);
      StepKeeps(st, commands[0]);
      StepCanonicalIff(st, commands[0]);
      RunCanonicalIff(st', commands[1..]);
      UpdatesConcat(first, rest);
      AllCanonicalConcat(Updates(first), Updates(rest));
    }
  }

  /** Every best level of every book on the way has a true sum that fits in 64 bits. */
  ghost predicate Fits(st: State) {
    forall s: Uint32, d: Side :: BestSum(BookOf(st.books, s).Half(d)) < WORD
  }

  ghost predicate RunFits(st: State, commands: seq<Command>)
    decreases |commands|
  {
    Fits(st) && (commands != [] ==> RunFits(Step(st, commands[0]).state, commands[1..]))
  }

  lemma {:induction false} FitsPublishable(st: State, s: Uint32, d: Side)
    requires Inv(st) && Fits(st)
    ensures Publishable(BookOf(st.books, s).Half(d))
  {
    hide SideInv, BestSum, Publishable, Uncrossed;
    InvBook(st, s);
    PublishableIff(1, d, BookOf(st.books, s).Half(d));
  }

  /** While best levels fit in 64 bits everything can be published. */
  lemma {:induction false} FittingRunsPublish(st: State, commands: seq<Command>)
    requires Inv(st) && RunFits(st, commands)
    ensures RunPublishable(st, commands)
    decreases |commands|
  {
    hide Inv, Step, Publishable, Fits, Top;
    if commands != [] {
      var st' := Step(st, commands[0]).state;
      StepKeeps(st, commands[0]);
      assert Fits(st') by {
        FitsNow(st', commands[1..]);
      }
      forall s: Uint32, d: Side
        ensures Publishable(BookOf(st'.books, s).Half(d))
      {
        FitsPublishable(st', s, d);
      }
      FittingRunsPublish(st', commands[1..]);
    }
  }

  lemma FitsNow(st: State, commands: seq<Command>)
    requires RunFits(st, commands)
    ensures Fits(st)
  {
  }

  /**
   Over any run from an empty engine whose moved tops can be published, every update is
   published, in order, under consecutive sequence numbers; other events consume none.
   */
  lemma {:induction false} RunPublishes(commands: seq<Command>, first: Uint64)
    requires 0 < first && RunPublishable(INITIAL, commands)
    requires first + |Updates(EventsOf(INITIAL, commands))| <= WORD
    ensures Publish(Feed(first, false), EventsOf(INITIAL, commands))
         == Datagrams(Numbered(first, Updates(EventsOf(INITIAL, commands))))
  {
    hide RunPublishable, AllCanonical, Updates, EventsOf, Publish, Datagrams, Numbered;
    InitialInv();
    RunCanonicalIff(INITIAL, commands);
    PublishesEveryUpdate(Feed(first, false), EventsOf(INITIAL, commands));
  }

  // ---------- an update that cannot be published ----------

  function HalfWordBid(client: Uint64): Command {
    Submit(SubmitOrder(Key(1, client), 1, Buy, Limit(100), 0x8000_0000_0000_0000))
  }

  function HalfWordOrder(client: Uint64): Order {
    Order(Key(1, client), Buy, 100, 0x8000_0000_0000_0000, client)
  }

  lemma {:induction false} RestsBehind(q: seq<Order>, o: Order)
    requires forall i :: 0 <= i < |q| ==> q[i].price == o.price
    ensures Join(Buy, q, o) == q + [o]
  {
    assert Slot(Buy, q, o.price) == |q|;
  }

  lemma {:induction false} HalfWordBidRests(st: State, client: Uint64)
    requires 0 < client && st.next == client && Key(1, client) !in st.owner && BookOf(st.books, 1).asks == []
    requires forall i :: 0 <= i < |BookOf(st.books, 1).bids| ==> BookOf(st.books, 1).bids[i].price == 100
    ensures var st' := Step(st, HalfWordBid(client)).state;
            && BookOf(st'.books, 1) == Book(BookOf(st.books, 1).bids + [HalfWordOrder(client)], [])
            && st'.owner == st.owner[Key(1, client) := 1] && st'.next == Wrap(client + 1)
  {
    RestsBehind(BookOf(st.books, 1).bids, HalfWordOrder(client));
  }

  /** The states that the two bids lead to. */
  lemma {:induction false} HalfWordBidsRest()
    ensures var one := Step(INITIAL, HalfWordBid(1)).state;
            && BookOf(one.books, 1).Half(Buy) == [HalfWordOrder(1)]
            && BookOf(Step(one, HalfWordBid(2)).state.books, 1).Half(Buy) == [HalfWordOrder(1), HalfWordOrder(2)]
  {
    hide Step;
    HalfWordBidRests(INITIAL, 1);
    HalfWordBidRests(Step(INITIAL, HalfWordBid(1)).state, 2);
  }

  /** Two bids of 2^63 at one price are accepted and both rest, yet the second update cannot be published. */
  lemma {:induction false} WrappedLevelIsRefused()
    ensures !RunPublishable(INITIAL, [HalfWordBid(1), HalfWordBid(2)])
    ensures BookOf(RunState(INITIAL, [HalfWordBid(1), HalfWordBid(2)]).books, 1).bids
            == [HalfWordOrder(1), HalfWordOrder(2)]
    ensures Top([HalfWordOrder(1), HalfWordOrder(2)]) == Some(LevelView(100, 0))
  {
    hide Step, Publishable, Top, HalfWordBid, HalfWordOrder, BookOf;
    var one := Step(INITIAL, HalfWordBid(1)).state;
    var two := Step(one, HalfWordBid(2)).state;
    var commands := [HalfWordBid(1), HalfWordBid(2)];
    assert commands[1..] == [HalfWordBid(2)] && commands[1..][1..] == [];
    HalfWordBidsRest();
    WrappedTop([HalfWordOrder(1), HalfWordOrder(2)]);
    assert !StepPublishable(one, HalfWordBid(2)) by {
      assert Top(BookOf(two.books, 1).Half(Buy)) != Top(BookOf(one.books, 1).Half(Buy));
    }
    assert !RunPublishable(one, commands[1..]);
  }

  lemma {:induction false} WrappedTop(q: seq<Order>)
    requires q == [HalfWordOrder(1), HalfWordOrder(2)]
    ensures Top(q) == Some(LevelView(100, 0)) && !Publishable(q)
    ensures Top([HalfWordOrder(1)]) == Some(LevelView(100, 0x8000_0000_0000_0000))
  {
    assert q[1..] == [q[1]];
    assert q[1..][1..] == [];
    assert Run(q) == 2;
    assert q[..2] == q;
    assert TotalOpen(q[1..]) == 0x8000_0000_0000_0000;
    assert TotalOpen(q) == WORD;
    assert [q[0]][..1] == [q[0]];
    assert TotalOpen([q[0]]) == 0x8000_0000_0000_0000;
  }
}
