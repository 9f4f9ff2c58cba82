/**
 The matching engine as a transition function on values.  A book is two flat
 queues; the engine is a map of books, the symbol each active key belongs to,
 and the order-priority counter.
 */
module MatchingSpec {
  import opened Domain
  import opened PriceTime

  datatype Book = Book(bids: seq<Order>, asks: seq<Order>) {
    function Half(d: Side): seq<Order> {
      if d == Buy then bids else asks
    }

    function With(d: Side, q: seq<Order>): Book {
      if d == Buy then Book(q, asks) else Book(bids, q)
    }
  }

  ghost predicate Rests(b: Book, k: Key) {
    Holds(b.bids, k) || Holds(b.asks, k)
  }

  // ---------- one book ----------

  /** The book after an aggressor has matched and, if it may, rested; its fill; whether it rested. */
  datatype Execution = Execution(book: Book, fill: Fill, rested: bool)

  function Execute(b: Book, key: Key, d: Side, pricing: Pricing, size: Uint64, sequence: Uint64): Execution {
    var f := Greedy(b.Half(Opposite(d)), d, pricing, size);
    var matched := b.With(Opposite(d), f.rest);
    if 0 < f.open && pricing.Limit? then
      var own := Join(d, b.Half(d), Order(key, d, pricing.price, f.open, sequence));
      Execution(matched.With(d, own), f, true)
    else
      Execution(matched, f, false)
  }

  function TradeEvents(instrument: Uint32, aggressor: Key, trades: seq<Trade>): (events: seq<Event>)
    ensures |events| == |trades|
  {
    if trades == [] then []
    else [TradeExecuted(aggressor, trades[0].resting, instrument, trades[0].price, trades[0].size)]
         + TradeEvents(instrument, aggressor, trades[1..])
  }

  function TopEvent(instrument: Uint32, d: Side, top: Option<LevelView>): Event {
    match top
    case None => BookUpdated(instrument, d, None, 0)
    case Some(l) => BookUpdated(instrument, d, Some(l.price), l.totalSize)
  }

  function TopChange(instrument: Uint32, d: Side, before: Option<LevelView>, after: Option<LevelView>): seq<Event> {
    if before == after then [] else [TopEvent(instrument, d, after)]
  }

  /** `applied` is false when the handle does not name a resting order. */
  datatype BookResult = BookResult(book: Book, events: seq<Event>, filled: seq<Key>, rested: bool, applied: bool)

  function SubmitToBook(b: Book, o: SubmitOrder, sequence: Uint64): BookResult {
    var x := Execute(b, o.key, o.direction, o.pricing, o.size, sequence);
    BookResult(x.book,
               [SubmitAccepted(o.key)]
               + TradeEvents(o.instrument, o.key, x.fill.trades)
               + TopChange(o.instrument, Buy, Top(b.bids), Top(x.book.bids))
               + TopChange(o.instrument, Sell, Top(b.asks), Top(x.book.asks)),
               x.fill.filled, x.rested, true)
  }

  /** A limit update at the resting price that does not grow the order is done in place. */
  predicate ReducesInPlace(resting: Order, u: UpdateOrder) {
    u.pricing == Limit(resting.price) && u.size <= resting.open
  }

  function ReduceInBook(instrument: Uint32, b: Book, d: Side, i: nat, u: UpdateOrder): BookResult
    requires i < |b.Half(d)|
  {
    var own := Resized(b.Half(d), i, u.size);
    BookResult(b.With(d, own),
               [UpdateAccepted(u.key)] + TopChange(instrument, d, Top(b.Half(d)), Top(own)),
               [], true, true)
  }

  /** The order leaves its queue and comes back as the aggressor. */
  function ReplaceInBook(instrument: Uint32, b: Book, d: Side, i: nat, u: UpdateOrder, sequence: Uint64): BookResult
    requires i < |b.Half(d)|
  {
    var x := Execute(b.With(d, RemoveAt(b.Half(d), i)), u.key, d, u.pricing, u.size, sequence);
    var other := Opposite(d);
    BookResult(x.book,
               [UpdateAccepted(u.key)]
               + TradeEvents(instrument, u.key, x.fill.trades)
               + TopChange(instrument, d, Top(b.Half(d)), Top(x.book.Half(d)))
               + TopChange(instrument, other, Top(b.Half(other)), Top(x.book.Half(other))),
               x.fill.filled, x.rested, true)
  }

  function UpdateInBook(instrument: Uint32, b: Book, d: Side, u: UpdateOrder, sequence: Uint64): BookResult {
    var i := Find(b.Half(d), u.key);
    if i == |b.Half(d)| then BookResult(b, [], [], false, false)
    else if ReducesInPlace(b.Half(d)[i], u) then ReduceInBook(instrument, b, d, i, u)
    else ReplaceInBook(instrument, b, d, i, u, sequence)
  }

  function CancelInBook(instrument: Uint32, b: Book, d: Side, key: Key): BookResult {
    var own := b.Half(d);
    var i := Find(own, key);
    if i == |own| then BookResult(b, [], [], false, false)
    else
      var own' := RemoveAt(own, i);
      BookResult(b.With(d, own'),
                 [OrderCancelled(key)] + TopChange(instrument, d, Top(own), Top(own')),
                 [], false, true)
  }

  // ---------- the engine ----------

  datatype State = State(books: map<Uint32, Book>, owner: map<Key, Uint32>, next: Uint64)

  const INITIAL := State(map[], map[], 1)

  datatype Outcome = Outcome(state: State, response: Response)

  function SubmitFault(o: SubmitOrder): Option<Reason> {
    if o.key.user == 0 then Some(ZeroUser)
    else if o.key.clientOrder == 0 then Some(ZeroClientOrder)
    else if o.instrument == 0 then Some(ZeroSymbol)
    else if o.size == 0 then Some(ZeroSize)
    else None
  }

  function UpdateFault(u: UpdateOrder): Option<Reason> {
    if u.key.user == 0 then Some(ZeroUser)
    else if u.key.clientOrder == 0 then Some(ZeroClientOrder)
    else if u.size == 0 then Some(ZeroSize)
    else if !u.pricing.Limit? then Some(PricingNotLimit)
    else None
  }

  function Keys(filled: seq<Key>): set<Key> {
    set k | k in filled
  }

  function BookOf(books: map<Uint32, Book>, instrument: Uint32): Book {
    if instrument in books then books[instrument] else Book([], [])
  }

  /** The side a resting key is on; an active handle records it. */
  function HoldingSide(b: Book, k: Key): Side {
    if Find(b.bids, k) < |b.bids| then Buy else Sell
  }

  function SubmitStep(st: State, o: SubmitOrder): Outcome {
    match SubmitFault(o)
    case Some(reason) => Outcome(st, Events([SubmitRejected(o.key, reason)]))
    case None =>
      if o.key in st.owner then Outcome(st, Events([SubmitRejected(o.key, KeyAlreadyActive)]))
      else
        var r := SubmitToBook(BookOf(st.books, o.instrument), o, st.next);
        var owner := st.owner - Keys(r.filled);
        Outcome(State(st.books[o.instrument := r.book],
                      if r.rested then owner[o.key := o.instrument] else owner,
                      Wrap(st.next + 1)),
                Events(r.events))
  }

  function UpdateStep(st: State, u: UpdateOrder): Outcome {
    match UpdateFault(u)
    case Some(reason) => Outcome(st, Events([UpdateRejected(u.key, reason)]))
    case None =>
      if u.key !in st.owner then Outcome(st, Events([UpdateRejected(u.key, NotActive)]))
      else if st.owner[u.key] !in st.books then
        Outcome(st.(owner := st.owner - {u.key}), Events([UpdateRejected(u.key, BookMissing)]))
      else
        var s := st.owner[u.key];
        var b := st.books[s];
        var r := UpdateInBook(s, b, HoldingSide(b, u.key), u, st.next);
        if !r.applied then
          Outcome(State(st.books, st.owner - {u.key}, Wrap(st.next + 1)),
                  Events([UpdateRejected(u.key, BookInconsistent)]))
        else
          Outcome(State(st.books[s := r.book],
                        if r.rested then st.owner - Keys(r.filled) else st.owner - Keys(r.filled) - {u.key},
                        Wrap(st.next + 1)),
                  Events(r.events))
  }

  function CancelStep(st: State, key: Key): Outcome {
    if key !in st.owner then Outcome(st, Events([CancelRejected(key, NotActive)]))
    else if st.owner[key] !in st.books then
      Outcome(st.(owner := st.owner - {key}), Events([CancelRejected(key, BookMissing)]))
    else
      var s := st.owner[key];
      var b := st.books[s];
      var r := CancelInBook(s, b, HoldingSide(b, key), key);
      Outcome(State(st.books[s := r.book], if r.applied then st.owner - {key} else st.owner, st.next),
              Events(r.events))
  }

  function Take<T>(s: seq<T>, depth: nat): seq<T> {
    s[..Min(depth, |s|)]
  }

  function SnapshotOf(instrument: Uint32, b: Book, depth: nat): BookSnapshot {
    BookSnapshot(instrument, Take(Levels(b.bids), depth), Take(Levels(b.asks), depth))
  }

  function Step(st: State, c: Command): Outcome {
    match c
    case Submit(o) => SubmitStep(st, o)
    case Update(u) => UpdateStep(st, u)
    case Cancel(k) => CancelStep(st, k)
    case Snapshot(s, depth) =>
      Outcome(st, SnapshotReply(if s in st.books then Some(SnapshotOf(s, st.books[s], depth)) else None))
  }

  /** The state after a run. */
  function RunState(st: State, commands: seq<Command>): State
    decreases |commands|
  {
    if commands == [] then st else RunState(Step(st, commands[0]).state, commands[1..])
  }

  // ---------- invariants ----------

  ghost predicate Uncrossed(b: Book) {
    forall i, j :: 0 <= i < |b.bids| && 0 <= j < |b.asks| ==> b.bids[i].price < b.asks[j].price
  }

  ghost predicate BookInv(b: Book) {
    && SideInv(Buy, b.bids)
    && SideInv(Sell, b.asks)
    && Uncrossed(b)
    && (forall k :: !(Holds(b.bids, k) && Holds(b.asks, k)))
  }

  /** The active-order index names exactly the resting keys, each in its one book. */
  ghost predicate IndexAgrees(st: State) {
    forall s: Uint32, k: Key :: Rests(BookOf(st.books, s), k) <==> k in st.owner && st.owner[k] == s
  }

  ghost predicate Inv(st: State) {
    && 0 !in st.books
    && (forall s :: s in st.books ==> BookInv(st.books[s]))
    && IndexAgrees(st)
  }
}
