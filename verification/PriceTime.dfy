/**
 One side of a book as a flat queue: every resting order, best price first and
 oldest first within a price.  This is the meaning that the levels of
 `BookSide` are proved to refine.
 */
module PriceTime {
  import opened Domain

  /** Price p is strictly better than q for an order resting on side d. */
  predicate Ahead(d: Side, p: Price, q: Price) {
    if d == Buy then p > q else p < q
  }

  /** An aggressor of side d with this pricing may trade at resting price p. */
  predicate Crosses(d: Side, pricing: Pricing, p: Price) {
    pricing.Market? || (if d == Buy then pricing.price >= p else pricing.price <= p)
  }

  function TotalOpen(q: seq<Order>): (n: nat) {
    if q == [] then 0 else q[0].open + TotalOpen(q[1..])
  }

  ghost predicate Ranked(d: Side, q: seq<Order>) {
    forall i, j :: 0 <= i < j < |q| ==> !Ahead(d, q[j].price, q[i].price)
  }

  ghost predicate DistinctKeys(q: seq<Order>) {
    forall i, j :: 0 <= i < j < |q| ==> q[i].key != q[j].key
  }

  ghost predicate Live(d: Side, q: seq<Order>) {
    forall i :: 0 <= i < |q| ==> q[i].direction == d && 0 < q[i].open
  }

  /** What every reachable side satisfies. */
  ghost predicate SideInv(d: Side, q: seq<Order>) {
    Live(d, q) && Ranked(d, q) && DistinctKeys(q)
  }

  ghost predicate Holds(q: seq<Order>, k: Key) {
    exists i :: 0 <= i < |q| && q[i].key == k
  }

  /** Position of key k, or |q| when it is absent. */
  function Find(q: seq<Order>, k: Key): (i: nat)
    ensures i <= |q|
    ensures i < |q| ==> q[i].key == k
    ensures forall j :: 0 <= j < i ==> q[j].key != k
    ensures i < |q| <==> Holds(q, k)
  {
    if q == [] then 0
    else if q[0].key == k then assert Holds(q, k); 0
    else
      var i := Find(q[1..], k);
      assert Holds(q[1..], k) ==> q[i + 1].key == k;
      assert forall j :: 0 <= j < |q[1..]| ==> q[j + 1] == q[1..][j];
      i + 1
  }

  function RemoveAt<T>(q: seq<T>, i: nat): seq<T>
    requires i < |q|
  {
    q[..i] + q[i + 1..]
  }

  function InsertAt<T>(q: seq<T>, i: nat, x: T): seq<T>
    requires i <= |q|
  {
    q[..i] + [x] + q[i..]
  }

  /** Order i with its open size changed and nothing else. */
  function Resized(q: seq<Order>, i: nat, size: Uint64): seq<Order>
    requires i < |q|
  {
    q[i := q[i].(open := size)]
  }

  /** Where an order at price p joins: behind every order at p or better. */
  function Slot(d: Side, q: seq<Order>, p: Price): (i: nat)
    ensures i <= |q|
    ensures forall j :: 0 <= j < i ==> !Ahead(d, p, q[j].price)
    ensures i < |q| ==> Ahead(d, p, q[i].price)
  {
    if q == [] || Ahead(d, p, q[0].price) then 0 else 1 + Slot(d, q[1..], p)
  }

  function Join(d: Side, q: seq<Order>, o: Order): seq<Order> {
    InsertAt(q, Slot(d, q, o.price), o)
  }

  // ---------- aggregation into levels ----------

  /** How many orders share the best price. */
  function Run(q: seq<Order>): (n: nat)
    ensures n <= |q| && (q != [] ==> 0 < n)
    ensures forall i :: 0 <= i < n ==> q[i].price == q[0].price
    ensures n < |q| ==> q[n].price != q[0].price
  {
    if |q| <= 1 then |q|
    else if q[1].price == q[0].price then
      assert forall i :: 0 <= i < |q| - 1 ==> q[1..][i] == q[i + 1];
      1 + Run(q[1..])
    else 1
  }

  function BestLevel(q: seq<Order>): LevelView
    requires q != []
  {
    LevelView(q[0].price, Wrap(TotalOpen(q[..Run(q)])))
  }

  function Top(q: seq<Order>): Option<LevelView> {
    if q == [] then None else Some(BestLevel(q))
  }

  function Levels(q: seq<Order>): seq<LevelView>
    decreases |q|
  {
    if q == [] then [] else [BestLevel(q)] + Levels(q[Run(q)..])
  }

  // ---------- matching ----------

  datatype Trade = Trade(resting: Key, price: Price, size: Uint64)

  /** What an aggressor leaves: the remaining queue, its own open size, the trades and the filled keys. */
  datatype Fill = Fill(rest: seq<Order>, open: Uint64, trades: seq<Trade>, filled: seq<Key>)

  function Prepend(trades: seq<Trade>, filled: seq<Key>, f: Fill): Fill {
    Fill(f.rest, f.open, trades + f.trades, filled + f.filled)
  }

  /** Greedy fill of a flat queue by an aggressor of side d with `open` left to trade. */
  function Greedy(q: seq<Order>, d: Side, pricing: Pricing, open: Uint64): Fill
    decreases |q|
  {
    if open == 0 || q == [] || !Crosses(d, pricing, q[0].price) then
      Fill(q, open, [], [])
    else if q[0].open <= open then
      Prepend([Trade(q[0].key, q[0].price, q[0].open)], [q[0].key],
              Greedy(q[1..], d, pricing, open - q[0].open))
    else
      Fill([q[0].(open := q[0].open - open)] + q[1..], 0, [Trade(q[0].key, q[0].price, open)], [])
  }

  function Traded(trades: seq<Trade>): nat {
    if trades == [] then 0 else trades[0].size + Traded(trades[1..])
  }

  /** The first |f.filled| orders of the queue are filled completely, in order, at their own prices. */
  ghost predicate FillsPrefix(q: seq<Order>, f: Fill) {
    && |f.filled| <= |q|
    && |f.filled| <= |f.trades| <= |f.filled| + 1
    && (forall i :: 0 <= i < |f.filled| ==> f.filled[i] == q[i].key)
    && (forall i :: 0 <= i < |f.filled| ==> f.trades[i] == Trade(q[i].key, q[i].price, q[i].open))
  }

  /** At most the next order is cut, by the last trade, and everything behind it is untouched. */
  ghost predicate CutsNext(q: seq<Order>, f: Fill)
    requires FillsPrefix(q, f)
  {
    var n := |f.filled|;
    if |f.trades| == n then f.rest == q[n..]
    else
      && n < |q| && f.open == 0
      && 0 < f.trades[n].size < q[n].open
      && f.trades[n] == Trade(q[n].key, q[n].price, f.trades[n].size)
      && f.rest == [q[n].(open := q[n].open - f.trades[n].size)] + q[n + 1..]
  }

  ghost predicate CrossingPrefix(q: seq<Order>, d: Side, pricing: Pricing, n: nat) {
    forall i :: 0 <= i < n && i < |q| ==> Crosses(d, pricing, q[i].price)
  }

  /** Trading stops only at zero open size, an empty queue or a price that does not cross. */
  predicate Exhausts(d: Side, pricing: Pricing, f: Fill) {
    f.open == 0 || f.rest == [] || !Crosses(d, pricing, f.rest[0].price)
  }

  /** Price-time priority said without the algorithm. */
  ghost predicate IsFill(q: seq<Order>, d: Side, pricing: Pricing, open: Uint64, f: Fill) {
    && FillsPrefix(q, f)
    && CutsNext(q, f)
    && CrossingPrefix(q, d, pricing, |f.trades|)
    && f.open + Traded(f.trades) == open
    && Exhausts(d, pricing, f)
  }
}
