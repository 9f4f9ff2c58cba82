/**
 One side of an order book: an ordered map of price levels, each a FIFO list of
 resting orders that handles point into.  The ghost fields tie the side to its
 flat meaning in `PriceTime`.
 */
module BookSides {
  import opened Domain
  import opened PriceTime
  import opened PriceTimeFacts
  import opened LevelFacts
  import opened MatchingSpec

  /** A list node.  Only the open size changes while it rests. */
  class RestingOrder {
    const key: Key
    const direction: Side
    const limitPrice: Price
    const sequence: Uint64
    var openSize: Uint64
    ghost const home: BookSide

    constructor (order: Order, ghost home: BookSide)
      ensures Value() == order && this.home == home
    {
      this.key := order.key;
      this.direction := order.direction;
      this.limitPrice := order.price;
      this.sequence := order.sequence;
      this.openSize := order.open;
      this.home := home;
    }

    ghost function Value(): Order
      reads this
    {
      Order(key, direction, limitPrice, openSize, sequence)
    }
  }

  type Level = PriceLevel<RestingOrder>

  /** A direct reference to a resting order: its side, its price and its node. */
  datatype Handle = NoHandle | Handle(direction: Side, price: Price, order: RestingOrder)

  /** The aggressor of one command; matching consumes its open size. */
  class IncomingOrder {
    const key: Key
    const direction: Side
    const sequence: Uint64
    var openSize: Uint64

    constructor (key: Key, direction: Side, size: Uint64, sequence: Uint64)
      ensures this.key == key && this.direction == direction && this.sequence == sequence && openSize == size
    {
      this.key, this.direction, this.sequence, this.openSize := key, direction, sequence, size;
    }
  }

  // ---------- one step of matching, on values ----------

  lemma {:induction false} TradeEventsConcat(s: Uint32, key: Key, a: seq<Trade>, b: seq<Trade>)
    ensures TradeEvents(s, key, a + b) == TradeEvents(s, key, a) + TradeEvents(s, key, b)
  {
    if a == [] {
      assert a + b == b;
    } else {
      assert (a + b)[1..] == a[1..] + b;
      TradeEventsConcat(s, key, a[1..], b);
    }
  }

  /** What the queue becomes after x of its head has traded. */
  function Consumed(q: seq<Order>, x: Uint64): seq<Order>
    requires q != [] && x <= q[0].open
  {
    if x == q[0].open then q[1..] else Resized(q, 0, q[0].open - x)
  }

  /** One trade against the head is one step of the greedy fill. */
  lemma {:induction false} GreedyStep(q: seq<Order>, d: Side, pricing: Pricing, open: Uint64, x: Uint64)
    requires q != [] && 0 < open && 0 < q[0].open && Crosses(d, pricing, q[0].price)
    requires x == Min(open, q[0].open)
    ensures Greedy(q, d, pricing, open) ==
      Prepend([Trade(q[0].key, q[0].price, x)], if x == q[0].open then [q[0].key] else [],
              Greedy(Consumed(q, x), d, pricing, open - x))
  {
  }

  /** A match under way: where it started, and the trades made and keys filled since. */
  datatype Progress = Progress(queue: seq<Order>, open: Uint64, events: seq<Event>, filled: seq<Key>,
                               trades: seq<Trade>, fills: seq<Key>)

  function Begin(queue: seq<Order>, open: Uint64, events: seq<Event>, filled: seq<Key>): Progress {
    Progress(queue, open, events, filled, [], [])
  }

  /**
   What has been done, followed by the greedy fill of what is left, is the greedy fill
   of the start; events and filled keys have been appended accordingly.
   */
  ghost predicate Follows(p: Progress, s: Uint32, key: Key, d: Side, pricing: Pricing,
                          q: seq<Order>, open: Uint64, events: seq<Event>, filled: seq<Key>) {
    && Greedy(p.queue, d, pricing, p.open) == Prepend(p.trades, p.fills, Greedy(q, d, pricing, open))
    && events == p.events + TradeEvents(s, key, p.trades)
    && filled == p.filled + p.fills
  }

  lemma BeginFollows(s: Uint32, key: Key, d: Side, pricing: Pricing, q: seq<Order>, open: Uint64, events: seq<Event>,
                     filled: seq<Key>)
    ensures Follows(Begin(q, open, events, filled), s, key, d, pricing, q, open, events, filled)
  {
  }

  /** The front of q trades x: the match goes on from what is left. */
  lemma {:induction false} FollowsStep(p: Progress, s: Uint32, key: Key, d: Side, pricing: Pricing,
                                       q: seq<Order>, open: Uint64, events: seq<Event>, filled: seq<Key>, x: Uint64)
    requires Follows(p, s, key, d, pricing, q, open, events, filled)
    requires q != [] && 0 < open && 0 < q[0].open && Crosses(d, pricing, q[0].price) && x == Min(open, q[0].open)
    ensures var t := Trade(q[0].key, q[0].price, x);
            var gone := if x == q[0].open then [q[0].key] else [];
            Follows(p.(trades := p.trades + [t], fills := p.fills + gone), s, key, d, pricing,
                    Consumed(q, x), open - x, events + [TradeExecuted(key, t.resting, s, t.price, x)], filled + gone)
  {
    var t := Trade(q[0].key, q[0].price, x);
    var gone := if x == q[0].open then [q[0].key] else [];
    GreedyStep(q, d, pricing, open, x);
    PrependTwice(p.trades, p.fills, [t], gone, Greedy(Consumed(q, x), d, pricing, open - x));
    TradeEventsConcat(s, key, p.trades, [t]);
    assert [t][1..] == [];
  }

  /** Consuming the front of a level leaves it describing what is left of it. */
  lemma {:induction false} DescribesConsumed(level: Level, q: seq<Order>, x: Uint64)
    requires 0 < |level.orders| <= |q| && Describes(level, q[..|level.orders|]) && x <= q[0].open
    ensures var total := Wrap(level.totalSize - x);
            var rest := if x == q[0].open then level.orders[1..] else level.orders;
            && |rest| <= |Consumed(q, x)|
            && Describes(PriceLevel(level.price, total, rest), Consumed(q, x)[..|rest|])
            && Consumed(q, x)[|rest|..] == q[|level.orders|..]
  {
    var n := |level.orders|;
    var head := q[..n];
    WrapPlus(TotalOpen(head), -(x as int));
    if x == q[0].open {
      assert q[1..][..n - 1] == head[1..];
    } else {
      assert Resized(q, 0, q[0].open - x)[..n] == Resized(head, 0, q[0].open - x);
      TotalOpenResize(head, 0, q[0].open - x);
    }
  }

  lemma PrependTwice(t: seq<Trade>, k: seq<Key>, t': seq<Trade>, k': seq<Key>, f: Fill)
    ensures Prepend(t, k, Prepend(t', k', f)) == Prepend(t + t', k + k', f)
  {
    assert t + (t' + f.trades) == (t + t') + f.trades;
    assert k + (k' + f.filled) == (k + k') + f.filled;
  }

  /** The map after its best level has been traded with: erased if empty. */
  function AfterBest(levels: seq<Level>, level: Level): seq<Level>
    requires levels != []
  {
    if level.orders == [] then levels[1..] else [level] + levels[1..]
  }

  lemma {:induction false} RegroupAfterBest(d: Side, levels: seq<Level>, q0: seq<Order>, level: Level, q: seq<Order>)
    requires Grouped(d, levels, q0) && levels != [] && level.price == levels[0].price
    requires |level.orders| <= |q| && Describes(level, q[..|level.orders|])
    requires q[|level.orders|..] == q0[|levels[0].orders|..]
    ensures Grouped(d, AfterBest(levels, level), q)
  {
    var n := |level.orders|;
    if n == 0 {
      assert q == q[n..];
    } else {
      GroupedCons(d, level, levels[1..], q[..n], q[n..]);
      assert q == q[..n] + q[n..];
    }
  }

  lemma {:induction false} NodesAfterBest(levels: seq<Level>, level: Level, nodes: seq<RestingOrder>)
    requires levels != [] && |level.orders| <= |levels[0].orders|
    requires |levels[0].orders| <= |Nodes(levels)|
    requires nodes == Nodes(levels)[|levels[0].orders| - |level.orders|..]
    requires |level.orders| <= |nodes| && nodes[..|level.orders|] == level.orders
    ensures nodes == Nodes(AfterBest(levels, level))
  {
    NodesLeft(levels[0].orders, Nodes(levels[1..]), level.orders, nodes);
    NodesCons(level, levels[1..]);
  }

  /** `operator[]` creates the level if it is missing; the append then makes it the joined map. */
  lemma {:induction false} LevelJoinInPlace(d: Side, levels: seq<Level>, found: seq<Level>, p: Price, size: Uint64,
                                            node: RestingOrder)
    requires var i := LowerBound(d, levels, p);
             found == if HasLevel(d, levels, p) then levels else InsertAt(levels, i, PriceLevel(p, 0, []))
    ensures var i := LowerBound(d, levels, p);
            && i < |found| && found[i].price == p
            && LevelJoin(d, levels, p, size, node)
               == found[i := PriceLevel(p, Wrap(found[i].totalSize + size), found[i].orders + [node])]
  {
    if !HasLevel(d, levels, p) {
      var i := LowerBound(d, levels, p);
      assert found[i] == PriceLevel(p, 0, []);
      assert found[i].orders + [node] == [node];
      SetInserted(levels, i, PriceLevel(p, 0, []), PriceLevel(p, Wrap(size), [node]));
    }
  }

  lemma InsertedAt<T>(s: seq<T>, k: nat, x: T)
    requires k <= |s|
    ensures |InsertAt(s, k, x)| == |s| + 1 && InsertAt(s, k, x)[k] == x
    ensures forall i :: 0 <= i <= |s| && i != k ==> InsertAt(s, k, x)[i] == s[if i < k then i else i - 1]
    ensures forall y :: y in InsertAt(s, k, x) <==> y == x || y in s
  {
    var r := InsertAt(s, k, x);
    forall y
      ensures y in r <==> y == x || y in s
    {
      if y in s {
        var i :| 0 <= i < |s| && s[i] == y;
        assert r[if i < k then i else i + 1] == y;
      }
    }
  }

  lemma RemovedAt<T>(s: seq<T>, k: nat)
    requires k < |s|
    ensures |RemoveAt(s, k)| == |s| - 1
    ensures forall i :: 0 <= i < |s| - 1 ==> RemoveAt(s, k)[i] == s[if i < k then i else i + 1]
  {
  }

  lemma RemovedMembers<T>(s: seq<T>, k: nat)
    requires k < |s|
    ensures forall x :: x in RemoveAt(s, k) ==> x in s
    ensures forall x :: x in s ==> x in RemoveAt(s, k) || x == s[k]
  {
    forall x | x in s
      ensures x in RemoveAt(s, k) || x == s[k]
    {
      var i :| 0 <= i < |s| && s[i] == x;
      assert i < k ==> RemoveAt(s, k)[i] == x;
      assert i > k ==> RemoveAt(s, k)[i - 1] == x;
    }
  }

  /** Shrinking the list and then dropping an empty level is the erase of the map. */
  lemma EraseInPlace(levels: seq<Level>, i: nat, j: nat, size: Uint64)
    requires i < |levels| && j < |levels[i].orders|
    ensures var l := PriceLevel(levels[i].price, Wrap(levels[i].totalSize - size), RemoveAt(levels[i].orders, j));
            LevelErase(levels, i, j, size) == if l.orders == [] then RemoveAt(levels, i) else levels[i := l]
  {
    RemovedAt(levels[i].orders, j);
  }

  function Position<T(==)>(s: seq<T>, x: T): (i: nat)
    requires x in s
    ensures i < |s| && s[i] == x
  {
    if s[0] == x then 0 else 1 + Position(s[1..], x)
  }

  lemma FindIs(q: seq<Order>, k: nat)
    requires k < |q| && DistinctKeys(q)
    ensures Find(q, q[k].key) == k
  {
    var i := Find(q, q[k].key);
    assert Holds(q, q[k].key);
  }

  lemma SetInserted<T>(s: seq<T>, i: nat, x: T, y: T)
    requires i <= |s|
    ensures InsertAt(s, i, x)[i := y] == InsertAt(s, i, y)
  {
  }

  lemma {:induction false} HeadDescribed(d: Side, levels: seq<Level>, q: seq<Order>)
    requires Grouped(d, levels, q) && levels != []
    ensures 0 < |levels[0].orders| <= |q| == |Nodes(levels)|
    ensures Nodes(levels)[..|levels[0].orders|] == levels[0].orders
    ensures Describes(levels[0], q[..|levels[0].orders|])
  {
    NodeCount(d, levels, q);
  }

  lemma NodesLeft<T>(orders: seq<T>, rest: seq<T>, left: seq<T>, nodes: seq<T>)
    requires |left| <= |orders|
    requires nodes == (orders + rest)[|orders| - |left|..] && nodes[..|left|] == left
    ensures nodes == left + rest
  {
    assert nodes[|left|..] == rest;
  }

  /** A match that has stopped is the greedy fill of its start. */
  lemma FollowsDone(p: Progress, s: Uint32, key: Key, d: Side, pricing: Pricing,
                    q: seq<Order>, open: Uint64, events: seq<Event>, filled: seq<Key>)
    requires Follows(p, s, key, d, pricing, q, open, events, filled)
    requires open == 0 || q == [] || !Crosses(d, pricing, q[0].price)
    ensures Greedy(p.queue, d, pricing, p.open) == Fill(q, open, p.trades, p.fills)
    ensures events == p.events + TradeEvents(s, key, p.trades) && filled == p.filled + p.fills
  {
    assert p.trades + [] == p.trades && p.fills + [] == p.fills;
  }

  /** The nodes that leave are those whose keys are reported filled. */
  lemma {:induction false} DroppedFilled(nodes: seq<RestingOrder>, q: seq<Order>, left: seq<RestingOrder>,
                                         d: Side, pricing: Pricing, open: Uint64)
    requires |nodes| == |q| && forall i :: 0 <= i < |q| ==> nodes[i].key == q[i].key && 0 < q[i].open
    requires |left| == |Greedy(q, d, pricing, open).rest| <= |nodes| && left == nodes[|nodes| - |left|..]
    ensures forall n :: n in nodes ==> n in left || n.key in Greedy(q, d, pricing, open).filled
  {
    hide Greedy;
    GreedyIsFill(q, d, pricing, open);
    var f := Greedy(q, d, pricing, open);
    var m := |f.filled|;
    assert |f.rest| == |q| - m;
    forall n | n in nodes
      ensures n in left || n.key in f.filled
    {
      var i :| 0 <= i < |nodes| && nodes[i] == n;
      if i < m {
        assert f.filled[i] == n.key;
      } else {
        assert left[i - m] == n;
      }
    }
  }

  /** The first order is priced at the first level. */
  lemma FrontStops(levels: seq<Level>, q: seq<Order>, d: Side)
    requires Grouped(d, levels, q)
    ensures if levels == [] then q == [] else q != [] && q[0].price == levels[0].price
  {
    if levels != [] {
      assert q[0] == q[..|levels[0].orders|][0];
    }
  }

  class BookSide {
    const instrument: Uint32
    const direction: Side
    /** The ordered map: best price first. */
    var levels: seq<Level>
    /** Every node, in priority order. */
    ghost var nodes: seq<RestingOrder>
    /** The flat queue this side stands for. */
    ghost var book: seq<Order>

    constructor (instrument: Uint32, direction: Side)
      ensures Valid() && book == [] && nodes == []
      ensures this.instrument == instrument && this.direction == direction
    {
      this.instrument, this.direction := instrument, direction;
      levels, nodes, book := [], [], [];
    }

    /** The nodes belong to this side and read as the flat queue. */
    ghost predicate Linked()
      reads this, nodes
    {
      && |nodes| == |book|
      && (forall i :: 0 <= i < |nodes| ==> nodes[i].home == this && nodes[i].Value() == book[i])
      && SideInv(direction, book)
    }

    ghost predicate Valid()
      reads this, nodes
    {
      Linked() && Grouped(direction, levels, book) && nodes == Nodes(levels)
    }

    function TopOfBook(): (top: Option<LevelView>)
      requires Valid()
      reads this, nodes
      ensures top == Top(book)
    {
      ViewsAreLevels(direction, levels, book);
      if levels == [] then None else Some(LevelView(levels[0].price, levels[0].totalSize))
    }

    /** Best levels first, at most `depth` of them. */
    method SnapshotLevels(depth: nat) returns (result: seq<LevelView>)
      requires Valid()
      ensures result == Take(Levels(book), depth)
    {
      hide Grouped, Nodes, Levels;
      ViewsAreLevels(direction, levels, book);
      result := [];
      var i := 0;
      while i < |levels|
        invariant 0 <= i <= |levels| && i <= depth
        invariant result == LevelViews(levels)[..i]
      {
        if |result| == depth {
          break;
        }
        result := result + [LevelView(levels[i].price, levels[i].totalSize)];
        i := i + 1;
      }
    }

    // ---------- matching ----------

    /** The front node trades x; the flat queue follows. */
    method ConsumeFront(resting: RestingOrder, x: Uint64)
      requires Linked() && nodes != [] && resting == nodes[0] && 0 < x <= book[0].open
      modifies resting`openSize, this`nodes, this`book
      ensures Linked()
      ensures book == Consumed(old(book), x)
      ensures nodes == if x == old(book)[0].open then old(nodes)[1..] else old(nodes)
      ensures resting.openSize == old(book)[0].open - x
    {
      resting.openSize := resting.openSize - x;
      if resting.openSize == 0 {
        TailKeeps(direction, book);
        nodes, book := nodes[1..], book[1..];
      } else {
        ResizeKeeps(direction, book, 0, resting.openSize);
        book := Resized(book, 0, resting.openSize);
      }
    }

    /** The level's list and aggregate are those of the first nodes of the queue. */
    ghost predicate Front(level: Level)
      reads this
    {
      && |level.orders| <= |nodes| && |level.orders| <= |book|
      && nodes[..|level.orders|] == level.orders
      && Describes(level, book[..|level.orders|])
    }

    /** The first order of a level at the front is the first of the side. */
    lemma FrontFirst(level: Level)
      requires Linked() && Front(level)
      ensures |level.orders| <= |nodes| && |level.orders| <= |book|
      ensures level.orders != [] ==>
        && level.orders[0] == nodes[0] && nodes[0].Value() == book[0]
        && book[0].price == level.price && 0 < book[0].open
    {
      if level.orders != [] {
        assert level.orders[0] == nodes[..|level.orders|][0];
        assert book[0] == book[..|level.orders|][0];
      }
    }

    /** One trade between the incoming order and the front of a level. */
    method TradeFront(incoming: IncomingOrder, level: Level, events: seq<Event>, filled: seq<Key>,
                      ghost pricing: Pricing, ghost progress: Progress)
      returns (level': Level, events': seq<Event>, filled': seq<Key>, ghost progress': Progress)
      requires Linked() && Front(level) && level.orders != [] && 0 < incoming.openSize
      requires Crosses(incoming.direction, pricing, level.price)
      requires Follows(progress, instrument, incoming.key, incoming.direction, pricing, book, incoming.openSize,
                       events, filled)
      modifies incoming`openSize, this`nodes, this`book, level.orders[0]
      ensures Linked() && Front(level') && level'.price == level.price
      ensures Follows(progress', instrument, incoming.key, incoming.direction, pricing, book, incoming.openSize,
                      events', filled')
      ensures progress' == progress.(trades := progress'.trades, fills := progress'.fills)
      ensures |level'.orders| == |level.orders| - 1 || (level'.orders == level.orders && incoming.openSize == 0)
      ensures nodes == old(nodes)[|level.orders| - |level'.orders|..]
      ensures |level.orders| <= |old(book)| && book[|level'.orders|..] == old(book)[|level.orders|..]
    {
      hide BookSide.Linked, Describes, Follows, Crosses, Greedy, TradeEvents, Wrap;
      FrontFirst(level);
      var resting := level.orders[0];
      var executed := Min(incoming.openSize, resting.openSize);
      events' := events + [TradeExecuted(incoming.key, resting.key, instrument, resting.limitPrice, executed)];
      FollowsStep(progress, instrument, incoming.key, incoming.direction, pricing, book, incoming.openSize, events,
                  filled, executed);
      DescribesConsumed(level, book, executed);
      progress' := progress.(trades := progress.trades + [Trade(resting.key, resting.limitPrice, executed)]);
      incoming.openSize := incoming.openSize - executed;
      ConsumeFront(resting, executed);
      level' := level.(totalSize := Wrap(level.totalSize - executed));
      filled' := filled;
      if resting.openSize == 0 {
        filled' := filled + [resting.key];
        progress' := progress'.(fills := progress.fills + [resting.key]);
        level' := level'.(orders := level.orders[1..]);
      } else {
        assert filled + [] == filled && progress.fills + [] == progress.fills;
      }
    }

    /** Trades the incoming order against one level until one of them is used up. */
    method MatchAgainstLevel(incoming: IncomingOrder, level: Level, events: seq<Event>, filled: seq<Key>,
                             ghost pricing: Pricing, ghost progress: Progress)
      returns (level': Level, events': seq<Event>, filled': seq<Key>, ghost progress': Progress)
      requires Linked() && Front(level)
      requires Crosses(incoming.direction, pricing, level.price)
      requires Follows(progress, instrument, incoming.key, incoming.direction, pricing, book, incoming.openSize,
                       events, filled)
      modifies incoming`openSize, this`nodes, this`book, nodes
      ensures Linked() && Front(level') && level'.price == level.price
      ensures incoming.openSize == 0 || level'.orders == []
      ensures Follows(progress', instrument, incoming.key, incoming.direction, pricing, book, incoming.openSize,
                      events', filled')
      ensures progress' == progress.(trades := progress'.trades, fills := progress'.fills)
      ensures |level'.orders| <= |level.orders| <= |old(nodes)|
              && nodes == old(nodes)[|level.orders| - |level'.orders|..]
      ensures |level.orders| <= |old(book)| && book[|level'.orders|..] == old(book)[|level.orders|..]
    {
      hide BookSide.Front, BookSide.Linked, Follows, Crosses;
      level', events', filled', progress' := level, events, filled, progress;
      FrontFirst(level);
      while 0 < incoming.openSize && level'.orders != []
        invariant Linked() && Front(level') && level'.price == level.price
        invariant Follows(progress', instrument, incoming.key, incoming.direction, pricing, book, incoming.openSize,
                          events', filled')
        invariant progress' == progress.(trades := progress'.trades, fills := progress'.fills)
        invariant |level'.orders| <= |level.orders| <= |old(nodes)|
                  && nodes == old(nodes)[|level.orders| - |level'.orders|..]
        invariant |level.orders| <= |old(book)| && |level'.orders| <= |book|
        invariant book[|level'.orders|..] == old(book)[|level.orders|..]
        decreases |level'.orders|, incoming.openSize
      {
        FrontFirst(level');
        level', events', filled', progress' := TradeFront(incoming, level', events', filled', pricing, progress');
        FrontFirst(level');
      }
    }

    /** Trades the incoming order through the best levels while its pricing crosses them. */
    method MatchOrder(pricing: Pricing, incoming: IncomingOrder, events: seq<Event>, filled: seq<Key>)
      returns (events': seq<Event>, filled': seq<Key>)
      requires Valid()
      modifies incoming`openSize, this`levels, this`nodes, this`book, nodes
      ensures Valid()
      ensures var f := Greedy(old(book), incoming.direction, pricing, old(incoming.openSize));
              && book == f.rest && incoming.openSize == f.open
              && events' == events + TradeEvents(instrument, incoming.key, f.trades)
              && filled' == filled + f.filled
      ensures forall n :: n in nodes ==> n in old(nodes)
      ensures forall n :: n in old(nodes) ==>
        n in nodes || n.key in Greedy(old(book), incoming.direction, pricing, old(incoming.openSize)).filled
    {
      hide Grouped, Nodes, Follows, Greedy, Crosses, TradeEvents;
      events', filled' := events, filled;
      ghost var progress := Begin(book, incoming.openSize, events, filled);
      BeginFollows(instrument, incoming.key, incoming.direction, pricing, book, incoming.openSize, events, filled);
      while 0 < incoming.openSize && levels != []
        invariant Valid()
        invariant Follows(progress, instrument, incoming.key, incoming.direction, pricing, book, incoming.openSize,
                          events', filled')
        invariant progress == Begin(old(book), old(incoming.openSize), events, filled)
                              .(trades := progress.trades, fills := progress.fills)
        invariant |nodes| <= |old(nodes)| && nodes == old(nodes)[|old(nodes)| - |nodes|..]
        decreases |levels|, incoming.openSize
      {
        if !Crosses(incoming.direction, pricing, levels[0].price) {
          break;
        }
        events', filled', progress := MatchBestLevel(pricing, incoming, events', filled', progress);
      }
      FrontStops(levels, book, direction);
      FollowsDone(progress, instrument, incoming.key, incoming.direction, pricing, book, incoming.openSize, events',
                  filled');
      DroppedFilled(old(nodes), old(book), nodes, incoming.direction, pricing, old(incoming.openSize));
    }

    /** One turn of the matching loop: trade with the best level, and erase it once it is empty. */
    method MatchBestLevel(pricing: Pricing, incoming: IncomingOrder, events: seq<Event>, filled: seq<Key>,
                          ghost progress: Progress)
      returns (events': seq<Event>, filled': seq<Key>, ghost progress': Progress)
      requires Valid() && 0 < incoming.openSize && levels != []
      requires Crosses(incoming.direction, pricing, levels[0].price)
      requires Follows(progress, instrument, incoming.key, incoming.direction, pricing, book, incoming.openSize,
                       events, filled)
      modifies incoming`openSize, this`levels, this`nodes, this`book, nodes
      ensures Valid()
      ensures Follows(progress', instrument, incoming.key, incoming.direction, pricing, book, incoming.openSize,
                      events', filled')
      ensures progress' == progress.(trades := progress'.trades, fills := progress'.fills)
      ensures |nodes| <= |old(nodes)| && nodes == old(nodes)[|old(nodes)| - |nodes|..]
      ensures |levels| < |old(levels)| || (|levels| == |old(levels)| && incoming.openSize < old(incoming.openSize))
    {
      hide SideInv, Grouped, Nodes, Describes, Follows;
      HeadDescribed(direction, levels, book);
      ghost var before, queue := levels, book;
      var level;
      level, events', filled', progress' := MatchAgainstLevel(incoming, levels[0], events, filled, pricing, progress);
      RegroupAfterBest(direction, before, queue, level, book);
      NodesAfterBest(before, level, nodes);
      levels := if level.orders == [] then levels[1..] else [level] + levels[1..];
    }

    // ---------- resting ----------

    /** A linked pair inserted at one place in both keeps them linked. */
    lemma {:induction false} InsertedLinks(before: seq<RestingOrder>, queue: seq<Order>, k: nat,
                                           node: RestingOrder, order: Order)
      requires |before| == |queue| && k <= |queue|
      requires forall i :: 0 <= i < |before| ==> before[i].home == this && before[i].Value() == queue[i]
      requires node.home == this && node.Value() == order
      ensures var after, longer := InsertAt(before, k, node), InsertAt(queue, k, order);
              && |after| == |longer|
              && (forall j :: 0 <= j < |after| ==> after[j].home == this && after[j].Value() == longer[j])
    {
      var after, longer := InsertAt(before, k, node), InsertAt(queue, k, order);
      forall j | 0 <= j < |after|
        ensures after[j].home == this && after[j].Value() == longer[j]
      {
        if j != k {
          var m := if j < k then j else j - 1;
          assert after[j] == before[m] && longer[j] == queue[m];
        }
      }
    }

    /** Appends the remainder to its level, creating the level when it is missing. */
    method RestOrder(incoming: IncomingOrder, limitPrice: Price) returns (handle: Handle)
      requires Valid() && incoming.direction == direction && 0 < incoming.openSize && !Holds(book, incoming.key)
      modifies this`levels, this`nodes, this`book
      ensures Valid()
      ensures book == Join(direction, old(book),
                           Order(incoming.key, direction, limitPrice, incoming.openSize, incoming.sequence))
      ensures handle.Handle? && handle.direction == direction && handle.price == limitPrice && fresh(handle.order)
      ensures handle.order in nodes && handle.order.key == incoming.key && handle.order.limitPrice == limitPrice
      ensures forall n :: n in nodes <==> n == handle.order || n in old(nodes)
    {
      hide SideInv, Grouped, Nodes, InsertAt, LowerBound, Slot, LevelJoin, Wrap;
      ghost var order := Order(incoming.key, direction, limitPrice, incoming.openSize, incoming.sequence);
      JoinKeeps(direction, book, order);
      var node := new RestingOrder(Order(incoming.key, direction, limitPrice, incoming.openSize, incoming.sequence),
                                   this);
      JoinGrouped(direction, levels, book, order, node);
      JoinNodes(direction, levels, book, order, node);
      var i := LowerBound(direction, levels, limitPrice);
      if !(i < |levels| && levels[i].price == limitPrice) {
        levels := InsertAt(levels, i, PriceLevel(limitPrice, 0, []));
      }
      LevelJoinInPlace(direction, old(levels), levels, limitPrice, incoming.openSize, node);
      levels := levels[i := PriceLevel(limitPrice, Wrap(levels[i].totalSize + incoming.openSize),
                                       levels[i].orders + [node])];
      ghost var k := Slot(direction, book, limitPrice);
      nodes, book := InsertAt(nodes, k, node), InsertAt(book, k, order);
      InsertedAt(old(nodes), k, node);
      InsertedLinks(old(nodes), old(book), k, node, order);
      handle := Handle(direction, limitPrice, node);
    }

    // ---------- handles ----------

    /** What a list iterator demands: it belongs to the level it names, if that level exists. */
    ghost predicate Fits(handle: Handle)
      reads this
    {
      handle.Handle? ==>
        forall i :: 0 <= i < |levels| && levels[i].price == handle.price ==> handle.order in levels[i].orders
    }

    /** The handle names a resting order with this key. */
    predicate Names(handle: Handle, key: Key)
      reads this
    {
      handle.Handle? && HasLevel(direction, levels, handle.price) && handle.order.key == key
    }

    /** Where the handle's node stands: level, place in the level, place in the queue. */
    lemma Locate(handle: Handle, key: Key) returns (i: nat, j: nat, k: nat)
      requires Valid() && Fits(handle) && Names(handle, key)
      ensures i == LowerBound(direction, levels, handle.price) < |levels|
      ensures j < |levels[i].orders| && levels[i].orders[j] == handle.order
              && j == Position(levels[i].orders, handle.order)
      ensures k == Offset(levels, i) + j < |book| && k < |nodes| && nodes[k] == handle.order
      ensures k == Find(book, key) && book[k] == handle.order.Value()
      ensures handle.order.limitPrice == handle.price
    {
      hide Grouped, Nodes;
      i := LowerBound(direction, levels, handle.price);
      j := Position(levels[i].orders, handle.order);
      k := Offset(levels, i) + j;
      NodePlace(direction, levels, book, i, j);
      FindIs(book, k);
    }

    /** A handle to a node of this side, with that node's key and price. */
    ghost predicate Owns(handle: Handle, key: Key)
      reads this
    {
      && handle.Handle? && handle.direction == direction
      && handle.order in nodes && handle.order.key == key && handle.order.limitPrice == handle.price
    }

    /** Such a handle finds its level, and its node is in that level's list. */
    lemma {:induction false} OwnsNames(handle: Handle, key: Key)
      requires Valid() && Owns(handle, key)
      ensures Fits(handle) && Names(handle, key) && Holds(book, key)
    {
      hide Grouped, Nodes;
      var k :| 0 <= k < |nodes| && nodes[k] == handle.order;
      assert book[k] == handle.order.Value();
      var i, j := PlaceOf(direction, levels, book, k);
      NodePlace(direction, levels, book, i, j);
      LevelFound(direction, levels, book, i);
      forall m | 0 <= m < |levels| && levels[m].price == handle.price
        ensures handle.order in levels[m].orders
      {
        LevelFound(direction, levels, book, m);
        assert levels[m].orders[j] == handle.order;
      }
    }

    /** Sides that differ share no node. */
    lemma Apart(other: BookSide)
      requires Valid() && other.Valid() && this != other
      ensures forall n :: n in nodes ==> n !in other.nodes
    {
    }

    lemma NodeOnce(k: nat, m: nat)
      requires Linked() && k < |nodes| && m < |nodes| && nodes[k] == nodes[m]
      ensures k == m
    {
      assert book[k].key == book[m].key;
    }

    /** Erases the named order from its level, and the level when it empties. */
    method RemoveOrder(key: Key, handle: Handle) returns (removed: bool)
      requires Valid() && Fits(handle)
      modifies this`levels, this`nodes, this`book
      ensures Valid()
      ensures removed == old(Names(handle, key))
      ensures !removed ==> book == old(book) && nodes == old(nodes) && levels == old(levels)
      ensures removed ==>
        var k := Find(old(book), key);
        && k < |old(book)| == |old(nodes)| && old(nodes)[k] == handle.order
        && book == RemoveAt(old(book), k) && nodes == RemoveAt(old(nodes), k)
      ensures forall n :: n in nodes ==> n in old(nodes)
      ensures forall n :: n in old(nodes) ==> n in nodes || (removed && n.key == key)
    {
      hide SideInv, Grouped, Nodes, Find, RemoveAt, LevelErase, EraseAt, Offset, LowerBound, Position, Wrap;
      if !handle.Handle? {
        return false;
      }
      var i := LowerBound(direction, levels, handle.price);
      if !(i < |levels| && levels[i].price == handle.price) {
        return false;
      }
      if handle.order.key != key {
        return false;
      }
      ghost var i', j', k := Locate(handle, key);
      EraseIsEraseAt(levels, i, j', handle.order.openSize);
      EraseNodes(levels, k, handle.order.openSize);
      EraseGrouped(direction, levels, book, k, handle.order.openSize);
      RemoveKeeps(direction, book, k);
      EraseInPlace(levels, i, j', handle.order.openSize);
      RemovedAt(nodes, k);
      RemovedAt(book, k);
      var level := levels[i];
      level := PriceLevel(level.price, Wrap(level.totalSize - handle.order.openSize),
                          RemoveAt(level.orders, Position(level.orders, handle.order)));
      levels := if level.orders == [] then RemoveAt(levels, i) else levels[i := level];
      nodes, book := RemoveAt(nodes, k), RemoveAt(book, k);
      removed := true;
      RemovedMembers(old(nodes), k);
    }

    /** Cancelling is removing, with the cancellation reported. */
    method CancelFromLevels(key: Key, handle: Handle, events: seq<Event>) returns (cancelled: bool, events': seq<Event>)
      requires Valid() && Fits(handle)
      modifies this`levels, this`nodes, this`book
      ensures Valid()
      ensures cancelled == old(Names(handle, key))
      ensures events' == if cancelled then events + [OrderCancelled(key)] else events
      ensures !cancelled ==> book == old(book) && nodes == old(nodes) && levels == old(levels)
      ensures cancelled ==>
        var k := Find(old(book), key);
        && k < |old(book)| == |old(nodes)| && old(nodes)[k] == handle.order
        && book == RemoveAt(old(book), k) && nodes == RemoveAt(old(nodes), k)
      ensures forall n :: n in nodes ==> n in old(nodes)
      ensures forall n :: n in old(nodes) ==> n in nodes || (cancelled && n.key == key)
    {
      cancelled := RemoveOrder(key, handle);
      events' := if cancelled then events + [OrderCancelled(key)] else events;
    }

    /** Shrinks the named order in place when the update keeps its price and does not grow it. */
    method ReduceOrderSize(u: UpdateOrder, handle: Handle) returns (reduced: bool)
      requires Valid() && Fits(handle) && 0 < u.size
      modifies this`levels, this`book, nodes
      ensures Valid() && nodes == old(nodes)
      ensures reduced == (old(Names(handle, u.key)) && u.pricing == Limit(handle.price)
                          && u.size <= old(handle.order.openSize))
      ensures !reduced ==> book == old(book) && levels == old(levels)
      ensures reduced ==>
        var k := Find(old(book), u.key);
        k < |old(book)| && book == Resized(old(book), k, u.size)
    {
      hide SideInv, Grouped, Nodes, Find, ResizeAt, Offset, LowerBound, Position, Wrap;
      if !u.pricing.Limit? || !handle.Handle? || u.pricing.price != handle.price {
        return false;
      }
      var i := LowerBound(direction, levels, handle.price);
      if !(i < |levels| && levels[i].price == handle.price) {
        return false;
      }
      var resting := handle.order;
      if resting.key != u.key || u.size > resting.openSize {
        return false;
      }
      ghost var i', j', k := Locate(handle, u.key);
      var reduction := resting.openSize - u.size;
      ResizeIsResizeAt(levels, i, j', reduction);
      ResizeNodes(levels, k, reduction);
      ResizeGrouped(direction, levels, book, k, u.size, reduction);
      ResizeKeeps(direction, book, k, u.size);
      forall m | 0 <= m < |nodes| && nodes[m] == resting
        ensures m == k
      {
        NodeOnce(k, m);
      }
      levels := levels[i := levels[i].(totalSize := Wrap(levels[i].totalSize - reduction))];
      resting.openSize := u.size;
      book := Resized(book, k, u.size);
      reduced := true;
    }
  }
}
