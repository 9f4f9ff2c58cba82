/** Value types shared by the matching engine and the market-data feed. */
module Domain {
  datatype Option<+T> = None | Some(value: T)

  /** 2^64: every counter, price and size of the program is an unsigned 64-bit word. */
  const WORD: int := 0x1_0000_0000_0000_0000

  type Uint64 = n: int | 0 <= n < 0x1_0000_0000_0000_0000
  type Uint32 = n: int | 0 <= n < 0x1_0000_0000
  /** A price is checked to be positive when it is built. */
  type Price = p: int | 0 < p < 0x1_0000_0000_0000_0000 witness 1

  /** The result of unsigned 64-bit arithmetic. */
  function Wrap(n: int): (w: Uint64)
    ensures 0 <= n < WORD ==> w == n
  {
    n % 0x1_0000_0000_0000_0000
  }

  lemma {:induction false} WrapPlus(a: int, b: int)
    ensures Wrap(Wrap(a) + b) == Wrap(a + b)
  {
    var q := a / 0x1_0000_0000_0000_0000;
    assert a == q * 0x1_0000_0000_0000_0000 + Wrap(a);
    assert a + b == q * 0x1_0000_0000_0000_0000 + (Wrap(a) + b);
  }

  function Min(a: int, b: int): int {
    if a <= b then a else b
  }

  datatype Side = Buy | Sell

  function Opposite(d: Side): Side {
    if d == Buy then Sell else Buy
  }

  datatype Key = Key(user: Uint64, clientOrder: Uint64)

  datatype Pricing = Limit(price: Price) | Market

  /** A resting order as a value: the reading of one list node. */
  datatype Order = Order(key: Key, direction: Side, price: Price, open: Uint64, sequence: Uint64)

  datatype SubmitOrder = SubmitOrder(key: Key, instrument: Uint32, direction: Side, pricing: Pricing, size: Uint64)
  datatype UpdateOrder = UpdateOrder(key: Key, pricing: Pricing, size: Uint64)

  datatype Command =
    | Submit(submit: SubmitOrder)
    | Update(update: UpdateOrder)
    | Cancel(key: Key)
    | Snapshot(instrument: Uint32, depth: nat)

  datatype Reason =
    | ZeroUser
    | ZeroClientOrder
    | ZeroSymbol
    | ZeroSize
    | KeyAlreadyActive
    | PricingNotLimit
    | NotActive
    | BookMissing
    | BookInconsistent

  datatype Event =
    | SubmitAccepted(key: Key)
    | SubmitRejected(key: Key, reason: Reason)
    | UpdateAccepted(key: Key)
    | UpdateRejected(key: Key, reason: Reason)
    | CancelRejected(key: Key, reason: Reason)
    | OrderCancelled(key: Key)
    | TradeExecuted(aggressor: Key, resting: Key, instrument: Uint32, price: Price, size: Uint64)
    | BookUpdated(instrument: Uint32, direction: Side, bestPrice: Option<Price>, totalSize: Uint64)

  /** One aggregated price level, as snapshots and the top of book show it. */
  datatype LevelView = LevelView(price: Price, totalSize: Uint64)

  datatype BookSnapshot = BookSnapshot(instrument: Uint32, bids: seq<LevelView>, asks: seq<LevelView>)

  datatype Response = Events(events: seq<Event>) | SnapshotReply(snapshot: Option<BookSnapshot>)
}
