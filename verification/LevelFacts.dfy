/**
 Price levels and how they group a flat queue.  Everything here is about values
 and node references only; no open size is read from the heap.
 */
module LevelFacts {
  import opened Domain
  import opened PriceTime
  import opened PriceTimeFacts

  /** One map entry: its price, the cached aggregate, and the FIFO list of nodes. */
  datatype PriceLevel<T> = PriceLevel(price: Price, totalSize: Uint64, orders: seq<T>)

  ghost function Nodes<T>(levels: seq<PriceLevel<T>>): seq<T> {
    if levels == [] then [] else levels[0].orders + Nodes(levels[1..])
  }

  /**
   The levels cut the queue into its runs of equal price, strictly best first, with
   no level empty and every aggregate equal to the sum of its orders modulo 2^64.
   */
  ghost predicate Grouped<T>(d: Side, levels: seq<PriceLevel<T>>, q: seq<Order>) {
    if levels == [] then q == []
    else
      var n := |levels[0].orders|;
      && 0 < n <= |q|
      && Describes(levels[0], q[..n])
      && AllBehind(d, levels[0].price, q[n..])
      && Grouped(d, levels[1..], q[n..])
  }

  /** The level's price and aggregate are those of these orders, one node each. */
  ghost predicate Describes<T>(level: PriceLevel<T>, q: seq<Order>) {
    && |level.orders| == |q|
    && (forall i :: 0 <= i < |q| ==> q[i].price == level.price)
    && level.totalSize == Wrap(TotalOpen(q))
  }

  ghost predicate AllBehind(d: Side, p: Price, q: seq<Order>) {
    forall i :: 0 <= i < |q| ==> Ahead(d, p, q[i].price)
  }

  function LevelViews<T>(levels: seq<PriceLevel<T>>): (views: seq<LevelView>)
    ensures |views| == |levels|
    ensures forall i :: 0 <= i < |levels| ==> views[i] == LevelView(levels[i].price, levels[i].totalSize)
  {
    if levels == [] then []
    else [LevelView(levels[0].price, levels[0].totalSize)] + LevelViews(levels[1..])
  }

  /** First level at price p or behind it: where `find` looks and `operator[]` inserts. */
  function LowerBound<T>(d: Side, levels: seq<PriceLevel<T>>, p: Price): (i: nat)
    ensures i <= |levels|
    ensures forall j :: 0 <= j < i ==> Ahead(d, levels[j].price, p)
    ensures i < |levels| ==> !Ahead(d, levels[i].price, p)
  {
    if levels == [] || !Ahead(d, levels[0].price, p) then 0 else 1 + LowerBound(d, levels[1..], p)
  }

  predicate HasLevel<T>(d: Side, levels: seq<PriceLevel<T>>, p: Price) {
    var i := LowerBound(d, levels, p);
    i < |levels| && levels[i].price == p
  }

  ghost function Offset<T>(levels: seq<PriceLevel<T>>, i: nat): nat
    requires i <= |levels|
  {
    if i == 0 then 0 else |levels[0].orders| + Offset(levels[1..], i - 1)
  }

  // ---------- the grouping determines what readers of the levels see ----------

  lemma {:induction false} NodeCount<T>(d: Side, levels: seq<PriceLevel<T>>, q: seq<Order>)
    requires Grouped(d, levels, q)
    ensures |Nodes(levels)| == |q|
    decreases levels
  {
    if levels != [] {
      NodeCount(d, levels[1..], q[|levels[0].orders|..]);
    }
  }

  lemma {:induction false} RunIs(q: seq<Order>, n: nat)
    requires 0 < n <= |q|
    requires forall i :: 0 <= i < n ==> q[i].price == q[0].price
    requires n < |q| ==> q[n].price != q[0].price
    ensures Run(q) == n
  {
  }

  /** Snapshots and the top of book can be read off the levels. */
  lemma {:induction false} ViewsAreLevels<T>(d: Side, levels: seq<PriceLevel<T>>, q: seq<Order>)
    requires Grouped(d, levels, q)
    ensures LevelViews(levels) == Levels(q)
    decreases levels
  {
    if levels != [] {
      var n := |levels[0].orders|;
      RunIs(q, n);
      ViewsAreLevels(d, levels[1..], q[n..]);
    }
  }

  lemma {:induction false} LevelsOrdered<T>(d: Side, levels: seq<PriceLevel<T>>, q: seq<Order>, i: nat, j: nat)
    requires Grouped(d, levels, q) && i < j < |levels|
    ensures Ahead(d, levels[i].price, levels[j].price)
    decreases levels
  {
    var n := |levels[0].orders|;
    if i > 0 {
      LevelsOrdered(d, levels[1..], q[n..], i - 1, j - 1);
    } else {
      var k := Offset(levels[1..], j - 1);
      NodePlace(d, levels[1..], q[n..], j - 1, 0);
      assert q[n..][k] == q[n + k];
    }
  }

  /** Position j of level i is position Offset + j of the queue. */
  lemma {:induction false} NodePlace<T>(d: Side, levels: seq<PriceLevel<T>>, q: seq<Order>, i: nat, j: nat)
    requires Grouped(d, levels, q) && i < |levels|
    requires j < |levels[i].orders| || j == 0
    ensures 0 < |levels[i].orders|
    ensures var k := Offset(levels, i) + j;
            && k < |q| == |Nodes(levels)|
            && q[k].price == levels[i].price
            && Nodes(levels)[k] == levels[i].orders[j]
    decreases levels
  {
    NodeCount(d, levels, q);
    if i > 0 {
      NodePlace(d, levels[1..], q[|levels[0].orders|..], i - 1, j);
    }
  }

  /** Conversely every position of the queue is in some level. */
  lemma {:induction false} PlaceOf<T>(d: Side, levels: seq<PriceLevel<T>>, q: seq<Order>, k: nat)
    returns (i: nat, j: nat)
    requires Grouped(d, levels, q) && k < |q|
    ensures i < |levels| && j < |levels[i].orders| && k == Offset(levels, i) + j
    decreases levels
  {
    var n := |levels[0].orders|;
    if k < n {
      i, j := 0, k;
    } else {
      i, j := PlaceOf(d, levels[1..], q[n..], k - n);
      i := i + 1;
      assert Offset(levels, i) == n + Offset(levels[1..], i - 1);
    }
  }

  lemma {:induction false} LevelFound<T>(d: Side, levels: seq<PriceLevel<T>>, q: seq<Order>, i: nat)
    requires Grouped(d, levels, q) && i < |levels|
    ensures LowerBound(d, levels, levels[i].price) == i
  {
    var m := LowerBound(d, levels, levels[i].price);
    if i < m {
    } else if m < i {
      LevelsOrdered(d, levels, q, m, i);
    }
  }

  /** A first level and its orders in front of a grouped rest. */
  lemma {:induction false} GroupedCons<T>(d: Side, level: PriceLevel<T>, tail: seq<PriceLevel<T>>, head: seq<Order>,
                                          rest: seq<Order>)
    requires head != [] && Describes(level, head) && AllBehind(d, level.price, rest)
    requires Grouped(d, tail, rest)
    ensures Grouped(d, [level] + tail, head + rest)
    ensures Nodes([level] + tail) == level.orders + Nodes(tail)
  {
    var q, ls, n := head + rest, [level] + tail, |head|;
    assert q[..n] == head && q[n..] == rest;
    assert ls[1..] == tail;
  }

  lemma UpdateTail<T>(s: seq<T>, i: nat, x: T)
    requires 0 < i < |s|
    ensures s[i := x] == [s[0]] + s[1..][i - 1 := x]
  {
  }

  lemma InsertTail<T>(s: seq<T>, i: nat, x: T)
    requires 0 < i <= |s|
    ensures InsertAt(s, i, x) == [s[0]] + InsertAt(s[1..], i - 1, x)
  {
    assert s == [s[0]] + s[1..];
    InsertBeyond([s[0]], s[1..], i - 1, x);
  }

  lemma RemoveTail<T>(s: seq<T>, i: nat)
    requires 0 < i < |s|
    ensures RemoveAt(s, i) == [s[0]] + RemoveAt(s[1..], i - 1)
  {
    assert s == [s[0]] + s[1..];
    RemoveBeyond([s[0]], s[1..], i - 1);
  }

  lemma RemoveBeyond<T>(a: seq<T>, b: seq<T>, k: nat)
    requires k < |b|
    ensures RemoveAt(a + b, |a| + k) == a + RemoveAt(b, k)
  {
  }

  lemma RemoveWithin<T>(a: seq<T>, b: seq<T>, k: nat)
    requires k < |a|
    ensures RemoveAt(a + b, k) == RemoveAt(a, k) + b
  {
  }

  // ---------- joining ----------

  function LevelJoin<T>(d: Side, levels: seq<PriceLevel<T>>, p: Price, size: Uint64, node: T): seq<PriceLevel<T>> {
    var i := LowerBound(d, levels, p);
    if HasLevel(d, levels, p) then
      levels[i := PriceLevel(p, Wrap(levels[i].totalSize + size), levels[i].orders + [node])]
    else
      InsertAt(levels, i, PriceLevel(p, Wrap(size), [node]))
  }

  lemma {:induction false} SlotIs(d: Side, q: seq<Order>, p: Price, i: nat)
    requires i <= |q|
    requires forall j :: 0 <= j < i ==> !Ahead(d, p, q[j].price)
    requires i < |q| ==> Ahead(d, p, q[i].price)
    ensures Slot(d, q, p) == i
  {
  }

  lemma {:induction false} LevelJoinStep<T>(d: Side, levels: seq<PriceLevel<T>>, p: Price, size: Uint64, node: T)
    requires levels != [] && Ahead(d, levels[0].price, p)
    ensures LevelJoin(d, levels, p, size, node) == [levels[0]] + LevelJoin(d, levels[1..], p, size, node)
  {
    var i := LowerBound(d, levels, p);
    if HasLevel(d, levels, p) {
      UpdateTail(levels, i, PriceLevel(p, Wrap(levels[i].totalSize + size), levels[i].orders + [node]));
    } else {
      InsertTail(levels, i, PriceLevel(p, Wrap(size), [node]));
    }
  }

  lemma TotalOpenOne(o: Order)
    ensures TotalOpen([o]) == o.open
  {
    assert [o][1..] == [];
  }

  lemma LevelJoinHead<T>(d: Side, levels: seq<PriceLevel<T>>, size: Uint64, node: T)
    requires levels != []
    ensures var l := levels[0];
            LevelJoin(d, levels, l.price, size, node)
            == [PriceLevel(l.price, Wrap(l.totalSize + size), l.orders + [node])] + levels[1..]
  {
    assert LowerBound(d, levels, levels[0].price) == 0;
  }

  lemma LevelJoinFront<T>(d: Side, levels: seq<PriceLevel<T>>, p: Price, size: Uint64, node: T)
    requires levels == [] || Ahead(d, p, levels[0].price)
    ensures LevelJoin(d, levels, p, size, node) == [PriceLevel(p, Wrap(size), [node])] + levels
  {
    assert LowerBound(d, levels, p) == 0;
  }

  /** A level that takes one more order at its end describes the longer list. */
  lemma {:induction false} DescribesMore<T>(level: PriceLevel<T>, head: seq<Order>, o: Order, node: T)
    requires Describes(level, head) && o.price == level.price
    ensures Describes(PriceLevel(level.price, Wrap(level.totalSize + o.open), level.orders + [node]), head + [o])
  {
    TotalOpenConcat(head, [o]);
    TotalOpenOne(o);
    WrapPlus(TotalOpen(head), o.open);
  }

  /** Where an order at the first level's price joins: right behind that level's orders. */
  lemma {:induction false} HeadSlot<T>(d: Side, levels: seq<PriceLevel<T>>, q: seq<Order>)
    requires Grouped(d, levels, q) && levels != []
    ensures Slot(d, q, levels[0].price) == |levels[0].orders| <= |q|
  {
    var n := |levels[0].orders|;
    assert forall i :: 0 <= i < n ==> q[i] == q[..n][i];
    assert n < |q| ==> q[n] == q[n..][0];
    SlotIs(d, q, levels[0].price, n);
  }

  lemma {:induction false} JoinHeadLevel<T>(d: Side, levels: seq<PriceLevel<T>>, q: seq<Order>, o: Order, node: T)
    requires Grouped(d, levels, q) && levels != [] && levels[0].price == o.price
    ensures var ls := LevelJoin(d, levels, o.price, o.open, node);
            && Grouped(d, ls, Join(d, q, o))
            && NodesJoined(levels, ls, Slot(d, q, o.price), node)
  {
    hide Describes, LevelJoin, Slot, Wrap, TotalOpen, LowerBound;
    var l, n := levels[0], |levels[0].orders|;
    var head, behind := q[..n], q[n..];
    HeadSlot(d, levels, q);
    DescribesMore(l, head, o, node);
    LevelJoinHead(d, levels, o.open, node);
    var l' := PriceLevel(o.price, Wrap(l.totalSize + o.open), l.orders + [node]);
    GroupedCons(d, l', levels[1..], head + [o], behind);
    assert Join(d, q, o) == head + [o] + behind;
  }

  lemma {:induction false} AheadOfHead<T>(d: Side, levels: seq<PriceLevel<T>>, q: seq<Order>, p: Price)
    requires Grouped(d, levels, q) && (levels == [] || Ahead(d, p, levels[0].price))
    ensures AllBehind(d, p, q)
  {
    if levels != [] {
      var n := |levels[0].orders|;
      forall i | 0 <= i < |q|
        ensures Ahead(d, p, q[i].price)
      {
        if i < n {
          assert q[i] == q[..n][i];
        } else {
          assert q[i] == q[n..][i - n];
        }
      }
    }
  }

  lemma {:induction false} JoinNewHead<T>(d: Side, levels: seq<PriceLevel<T>>, q: seq<Order>, o: Order, node: T)
    requires Grouped(d, levels, q) && (levels == [] || Ahead(d, o.price, levels[0].price))
    ensures var ls := LevelJoin(d, levels, o.price, o.open, node);
            && Grouped(d, ls, Join(d, q, o))
            && NodesJoined(levels, ls, Slot(d, q, o.price), node)
  {
    hide LevelJoin, Slot, Grouped, LowerBound;
    AheadOfHead(d, levels, q, o.price);
    SlotIs(d, q, o.price, 0);
    TotalOpenOne(o);
    LevelJoinFront(d, levels, o.price, o.open, node);
    GroupedCons(d, PriceLevel(o.price, Wrap(o.open), [node]), levels, [o], q);
    assert Join(d, q, o) == [o] + q;
  }

  /** Resting through the level map is joining the flat queue. */
  lemma {:induction false} JoinGrouped<T>(d: Side, levels: seq<PriceLevel<T>>, q: seq<Order>, o: Order, node: T)
    requires Grouped(d, levels, q)
    ensures Grouped(d, LevelJoin(d, levels, o.price, o.open, node), Join(d, q, o))
    decreases levels
  {
    if levels == [] || Ahead(d, o.price, levels[0].price) {
      JoinNewHead(d, levels, q, o, node);
    } else if o.price == levels[0].price {
      JoinHeadLevel(d, levels, q, o, node);
    } else {
      var n := |levels[0].orders|;
      JoinGrouped(d, levels[1..], q[n..], o, node);
      JoinDeeper(d, levels[0], LevelJoin(d, levels[1..], o.price, o.open, node), q[..n], q[n..], o);
      LevelJoinStep(d, levels, o.price, o.open, node);
      assert q == q[..n] + q[n..];
    }
  }

  /** The new node takes the same place among the nodes as the order among the orders. */
  lemma {:induction false} JoinNodes<T>(d: Side, levels: seq<PriceLevel<T>>, q: seq<Order>, o: Order, node: T)
    requires Grouped(d, levels, q)
    ensures NodesJoined(levels, LevelJoin(d, levels, o.price, o.open, node), Slot(d, q, o.price), node)
    decreases levels
  {
    hide NodesJoined, LevelJoin, Nodes, Slot, Describes, AllBehind;
    if levels == [] || Ahead(d, o.price, levels[0].price) {
      JoinNewHead(d, levels, q, o, node);
    } else if o.price == levels[0].price {
      JoinHeadLevel(d, levels, q, o, node);
    } else {
      var n := |levels[0].orders|;
      var k := Slot(d, q[n..], o.price);
      JoinNodes(d, levels[1..], q[n..], o, node);
      NodesJoinedCons(levels, LevelJoin(d, levels[1..], o.price, o.open, node), k, node);
      LevelJoinStep(d, levels, o.price, o.open, node);
      SlotBehind(d, levels, q, o.price);
    }
  }

  lemma {:induction false} SlotBehind<T>(d: Side, levels: seq<PriceLevel<T>>, q: seq<Order>, p: Price)
    requires Grouped(d, levels, q) && levels != [] && Ahead(d, levels[0].price, p)
    ensures var n := |levels[0].orders|; n <= |q| && Slot(d, q, p) == n + Slot(d, q[n..], p)
  {
    var n := |levels[0].orders|;
    DeeperSlot(d, q[..n], q[n..], p);
    assert q == q[..n] + q[n..];
  }

  /** The node list gained one node at position k. */
  ghost predicate NodesJoined<T>(before: seq<PriceLevel<T>>, after: seq<PriceLevel<T>>, k: nat, node: T) {
    k <= |Nodes(before)| && Nodes(after) == InsertAt(Nodes(before), k, node)
  }

  lemma {:induction false} JoinDeeper<T>(d: Side, level: PriceLevel<T>, tail: seq<PriceLevel<T>>, head: seq<Order>,
                                         behind: seq<Order>, o: Order)
    requires head != [] && Describes(level, head) && AllBehind(d, level.price, behind)
    requires Ahead(d, level.price, o.price)
    requires Grouped(d, tail, Join(d, behind, o))
    ensures Grouped(d, [level] + tail, Join(d, head + behind, o))
  {
    JoinBehind(d, level.price, behind, o);
    GroupedCons(d, level, tail, head, Join(d, behind, o));
    DeeperSlot(d, head, behind, o.price);
    InsertBeyond(head, behind, Slot(d, behind, o.price), o);
  }

  lemma NodesJoinedCons<T>(levels: seq<PriceLevel<T>>, tail': seq<PriceLevel<T>>, k: nat, node: T)
    requires levels != [] && NodesJoined(levels[1..], tail', k, node)
    ensures NodesJoined(levels, [levels[0]] + tail', |levels[0].orders| + k, node)
  {
    NodesCons(levels[0], tail');
    InsertBeyond(levels[0].orders, Nodes(levels[1..]), k, node);
  }

  lemma NodesCons<T>(level: PriceLevel<T>, tail: seq<PriceLevel<T>>)
    ensures Nodes([level] + tail) == level.orders + Nodes(tail)
  {
    assert ([level] + tail)[1..] == tail;
  }

  lemma InsertBeyond<T>(a: seq<T>, b: seq<T>, k: nat, x: T)
    requires k <= |b|
    ensures InsertAt(a + b, |a| + k, x) == a + InsertAt(b, k, x)
  {
  }

  lemma {:induction false} JoinBehind(d: Side, p: Price, q: seq<Order>, o: Order)
    requires AllBehind(d, p, q) && Ahead(d, p, o.price)
    ensures AllBehind(d, p, Join(d, q, o))
  {
    var k := Slot(d, q, o.price);
    var r := Join(d, q, o);
    forall i | 0 <= i < |r|
      ensures Ahead(d, p, r[i].price)
    {
      if i != k {
        assert r[i] == q[if i < k then i else i - 1];
      }
    }
  }

  lemma {:induction false} DeeperSlot(d: Side, head: seq<Order>, behind: seq<Order>, p: Price)
    requires forall j :: 0 <= j < |head| ==> Ahead(d, head[j].price, p)
    ensures Slot(d, head + behind, p) == |head| + Slot(d, behind, p)
  {
    SlotIs(d, head + behind, p, |head| + Slot(d, behind, p));
  }

  // ---------- erasing and resizing ----------

  function LevelErase<T>(levels: seq<PriceLevel<T>>, i: nat, j: nat, size: Uint64): seq<PriceLevel<T>>
    requires i < |levels| && j < |levels[i].orders|
  {
    var l := levels[i];
    if |l.orders| == 1 then RemoveAt(levels, i)
    else levels[i := PriceLevel(l.price, Wrap(l.totalSize - size), RemoveAt(l.orders, j))]
  }

  /** The same erase, addressed by flat position. */
  ghost function EraseAt<T>(levels: seq<PriceLevel<T>>, k: nat, size: Uint64): seq<PriceLevel<T>>
    requires k < |Nodes(levels)|
  {
    var l, tail := levels[0], levels[1..];
    if k >= |l.orders| then [l] + EraseAt(tail, k - |l.orders|, size)
    else if |l.orders| == 1 then tail
    else [PriceLevel(l.price, Wrap(l.totalSize - size), RemoveAt(l.orders, k))] + tail
  }

  lemma {:induction false} EraseIsEraseAt<T>(levels: seq<PriceLevel<T>>, i: nat, j: nat, size: Uint64)
    requires i < |levels| && j < |levels[i].orders|
    ensures Offset(levels, i) + j < |Nodes(levels)|
    ensures LevelErase(levels, i, j, size) == EraseAt(levels, Offset(levels, i) + j, size)
    decreases levels
  {
    if i > 0 {
      EraseIsEraseAt(levels[1..], i - 1, j, size);
      var l := levels[i];
      if |l.orders| == 1 {
        RemoveTail(levels, i);
      } else {
        UpdateTail(levels, i, PriceLevel(l.price, Wrap(l.totalSize - size), RemoveAt(l.orders, j)));
      }
    }
  }

  /** Erasing loses exactly that node. */
  lemma {:induction false} EraseNodes<T>(levels: seq<PriceLevel<T>>, k: nat, size: Uint64)
    requires k < |Nodes(levels)|
    ensures Nodes(EraseAt(levels, k, size)) == RemoveAt(Nodes(levels), k)
    decreases levels
  {
    var l, tail := levels[0], levels[1..];
    var n := |l.orders|;
    if k >= n {
      EraseNodes(tail, k - n, size);
      NodesCons(l, EraseAt(tail, k - n, size));
      RemoveBeyond(l.orders, Nodes(tail), k - n);
    } else {
      RemoveWithin(l.orders, Nodes(tail), k);
      if n == 1 {
        assert RemoveAt(l.orders, k) == [];
      } else {
        NodesCons(PriceLevel(l.price, Wrap(l.totalSize - size), RemoveAt(l.orders, k)), tail);
      }
    }
  }

  lemma {:induction false} EraseInHead<T>(d: Side, level: PriceLevel<T>, tail: seq<PriceLevel<T>>, head: seq<Order>,
                                          behind: seq<Order>, k: nat)
    requires Describes(level, head) && AllBehind(d, level.price, behind) && Grouped(d, tail, behind)
    requires k < |head| && 1 < |head|
    ensures Grouped(d, [PriceLevel(level.price, Wrap(level.totalSize - head[k].open), RemoveAt(level.orders, k))]
                    + tail,
                    RemoveAt(head, k) + behind)
  {
    TotalOpenRemove(head, k);
    WrapPlus(TotalOpen(head), -(head[k].open as int));
    var l' := PriceLevel(level.price, Wrap(level.totalSize - head[k].open), RemoveAt(level.orders, k));
    GroupedCons(d, l', tail, RemoveAt(head, k), behind);
  }

  /** Erasing a node from its level, and the level when it empties, removes its order from the queue. */
  lemma {:induction false} EraseGrouped<T>(d: Side, levels: seq<PriceLevel<T>>, q: seq<Order>, k: nat, size: Uint64)
    requires Grouped(d, levels, q) && k < |q| && k < |Nodes(levels)| && size == q[k].open
    ensures Grouped(d, EraseAt(levels, k, size), RemoveAt(q, k))
    decreases levels
  {
    var n := |levels[0].orders|;
    var tail, head, behind := levels[1..], q[..n], q[n..];
    if k >= n {
      assert behind[k - n] == q[k];
      EraseGrouped(d, tail, behind, k - n, size);
      RemoveBehind(d, levels[0].price, behind, k - n);
      GroupedCons(d, levels[0], EraseAt(tail, k - n, size), head, RemoveAt(behind, k - n));
      RemoveLate(q, n, k);
    } else if n == 1 {
      assert RemoveAt(q, k) == behind;
    } else {
      assert head[k] == q[k];
      EraseInHead(d, levels[0], tail, head, behind, k);
      RemoveEarly(q, n, k);
    }
  }

  lemma RemoveEarly<T>(q: seq<T>, n: nat, k: nat)
    requires k < n <= |q|
    ensures RemoveAt(q, k) == RemoveAt(q[..n], k) + q[n..]
  {
  }

  lemma RemoveLate<T>(q: seq<T>, n: nat, k: nat)
    requires n <= k < |q|
    ensures RemoveAt(q, k) == q[..n] + RemoveAt(q[n..], k - n)
  {
  }

  lemma RemoveBehind(d: Side, p: Price, q: seq<Order>, k: nat)
    requires AllBehind(d, p, q) && k < |q|
    ensures AllBehind(d, p, RemoveAt(q, k))
  {
    assert forall i :: 0 <= i < |q| - 1 ==> RemoveAt(q, k)[i] == q[if i < k then i else i + 1];
  }

  function LevelResize<T>(levels: seq<PriceLevel<T>>, i: nat, reduction: Uint64): seq<PriceLevel<T>>
    requires i < |levels|
  {
    levels[i := levels[i].(totalSize := Wrap(levels[i].totalSize - reduction))]
  }

  ghost function ResizeAt<T>(levels: seq<PriceLevel<T>>, k: nat, reduction: Uint64): seq<PriceLevel<T>>
    requires k < |Nodes(levels)|
  {
    var l, tail := levels[0], levels[1..];
    if k >= |l.orders| then [l] + ResizeAt(tail, k - |l.orders|, reduction)
    else [l.(totalSize := Wrap(l.totalSize - reduction))] + tail
  }

  lemma {:induction false} ResizeIsResizeAt<T>(levels: seq<PriceLevel<T>>, i: nat, j: nat, reduction: Uint64)
    requires i < |levels| && j < |levels[i].orders|
    ensures Offset(levels, i) + j < |Nodes(levels)|
    ensures LevelResize(levels, i, reduction) == ResizeAt(levels, Offset(levels, i) + j, reduction)
    decreases levels
  {
    if i > 0 {
      ResizeIsResizeAt(levels[1..], i - 1, j, reduction);
      UpdateTail(levels, i, levels[i].(totalSize := Wrap(levels[i].totalSize - reduction)));
    }
  }

  /** Reducing an order in place keeps every node where it is. */
  lemma {:induction false} ResizeNodes<T>(levels: seq<PriceLevel<T>>, k: nat, reduction: Uint64)
    requires k < |Nodes(levels)|
    ensures Nodes(ResizeAt(levels, k, reduction)) == Nodes(levels)
    decreases levels
  {
    var l, tail := levels[0], levels[1..];
    if k >= |l.orders| {
      ResizeNodes(tail, k - |l.orders|, reduction);
      NodesCons(l, ResizeAt(tail, k - |l.orders|, reduction));
    } else {
      NodesCons(l.(totalSize := Wrap(l.totalSize - reduction)), tail);
    }
  }

  lemma {:induction false} ResizeInHead<T>(d: Side, level: PriceLevel<T>, tail: seq<PriceLevel<T>>, head: seq<Order>,
                                           behind: seq<Order>, k: nat, size: Uint64)
    requires Describes(level, head) && AllBehind(d, level.price, behind) && Grouped(d, tail, behind)
    requires k < |head| && size <= head[k].open
    ensures Grouped(d, [level.(totalSize := Wrap(level.totalSize - (head[k].open - size)))] + tail,
                    Resized(head, k, size) + behind)
  {
    TotalOpenResize(head, k, size);
    WrapPlus(TotalOpen(head), size - head[k].open);
    GroupedCons(d, level.(totalSize := Wrap(level.totalSize - (head[k].open - size))), tail,
                Resized(head, k, size), behind);
  }

  lemma {:induction false} ResizeGrouped<T>(d: Side, levels: seq<PriceLevel<T>>, q: seq<Order>, k: nat, size: Uint64,
                                            reduction: Uint64)
    requires Grouped(d, levels, q) && k < |q| && k < |Nodes(levels)| && size + reduction == q[k].open
    ensures Grouped(d, ResizeAt(levels, k, reduction), Resized(q, k, size))
    decreases levels
  {
    var n := |levels[0].orders|;
    var tail, head, behind := levels[1..], q[..n], q[n..];
    if k >= n {
      assert behind[k - n] == q[k];
      ResizeGrouped(d, tail, behind, k - n, size, reduction);
      ResizeBehind(d, levels[0].price, behind, k - n, size);
      GroupedCons(d, levels[0], ResizeAt(tail, k - n, reduction), head, Resized(behind, k - n, size));
      ResizeLate(q, n, k, size);
    } else {
      assert head[k] == q[k];
      ResizeInHead(d, levels[0], tail, head, behind, k, size);
      ResizeEarly(q, n, k, size);
    }
  }

  lemma ResizeEarly(q: seq<Order>, n: nat, k: nat, size: Uint64)
    requires k < n <= |q|
    ensures Resized(q, k, size) == Resized(q[..n], k, size) + q[n..]
  {
  }

  lemma ResizeLate(q: seq<Order>, n: nat, k: nat, size: Uint64)
    requires n <= k < |q|
    ensures Resized(q, k, size) == q[..n] + Resized(q[n..], k - n, size)
  {
  }

  lemma ResizeBehind(d: Side, p: Price, q: seq<Order>, k: nat, size: Uint64)
    requires AllBehind(d, p, q) && k < |q|
    ensures AllBehind(d, p, Resized(q, k, size))
  {
  }
}
