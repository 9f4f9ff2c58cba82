/** What the levels of a snapshot say about the orders that rest. */
module SnapshotMeaning {
  import opened Domain
  import opened PriceTime
  import opened MatchingSpec
  import opened MatchingInvariant

  /** The true quantity resting at one price. */
  function OpenAt(q: seq<Order>, p: Price): nat {
    if q == [] then 0 else (if q[0].price == p then q[0].open else 0) + OpenAt(q[1..], p)
  }

  lemma {:induction false} OpenAtConcat(a: seq<Order>, b: seq<Order>, p: Price)
    ensures OpenAt(a + b, p) == OpenAt(a, p) + OpenAt(b, p)
  {
    if a == [] {
      assert a + b == b;
    } else {
      assert (a + b)[1..] == a[1..] + b;
      OpenAtConcat(a[1..], b, p);
    }
  }

  lemma {:induction false} OpenAtOnePrice(q: seq<Order>, price: Price, p: Price)
    requires forall i :: 0 <= i < |q| ==> q[i].price == price
    ensures OpenAt(q, p) == if p == price then TotalOpen(q) else 0
  {
    if q != [] {
      OpenAtOnePrice(q[1..], price, p);
    }
  }

  lemma {:induction false} OpenAtNone(q: seq<Order>, p: Price)
    requires forall i :: 0 <= i < |q| ==> q[i].price != p
    ensures OpenAt(q, p) == 0
  {
    if q != [] {
      OpenAtNone(q[1..], p);
    }
  }

  ghost predicate Priced(q: seq<Order>, p: Price) {
    exists k :: 0 <= k < |q| && q[k].price == p
  }

  ghost predicate Shown(levels: seq<LevelView>, p: Price) {
    exists i :: 0 <= i < |levels| && levels[i].price == p
  }

  /** Each price at which something rests is shown once, best first, with all that rests there. */
  ghost predicate Tells(d: Side, levels: seq<LevelView>, q: seq<Order>) {
    && (forall i, j :: 0 <= i < j < |levels| ==> Ahead(d, levels[i].price, levels[j].price))
    && (forall p :: Shown(levels, p) <==> Priced(q, p))
    && (forall i :: 0 <= i < |levels| ==> levels[i].totalSize == Wrap(OpenAt(q, levels[i].price)))
  }

  /** Behind the best level every price is strictly worse. */
  lemma {:induction false} RestIsBehind(d: Side, q: seq<Order>)
    requires q != [] && Ranked(d, q)
    ensures Ranked(d, q[Run(q)..])
    ensures forall k :: 0 <= k < |q[Run(q)..]| ==> Ahead(d, q[0].price, q[Run(q)..][k].price)
  {
    var n := Run(q);
    forall k | 0 <= k < |q[n..]|
      ensures Ahead(d, q[0].price, q[n..][k].price)
    {
      assert q[n..][k] == q[n + k];
      assert !Ahead(d, q[n].price, q[0].price) && q[n].price != q[0].price;
    }
  }

  lemma {:induction false} PricedSplit(q: seq<Order>, p: Price)
    requires q != []
    ensures Priced(q, p) <==> p == q[0].price || Priced(q[Run(q)..], p)
  {
    var n := Run(q);
    if Priced(q, p) && p != q[0].price {
      var k :| 0 <= k < |q| && q[k].price == p;
      assert q[n..][k - n] == q[k];
    }
    if Priced(q[n..], p) {
      var k :| 0 <= k < |q[n..]| && q[n..][k].price == p;
      assert q[n + k].price == p;
    }
  }

  lemma {:induction false} ShownCons(l: LevelView, rest: seq<LevelView>, p: Price)
    ensures Shown([l] + rest, p) <==> p == l.price || Shown(rest, p)
  {
    var all := [l] + rest;
    assert all[0] == l;
    if Shown(rest, p) {
      var i :| 0 <= i < |rest| && rest[i].price == p;
      assert all[i + 1].price == p;
    }
  }

  /** What rests at a price: all of the best level, or what rests behind it. */
  lemma {:induction false} OpenAtSplit(d: Side, q: seq<Order>, p: Price)
    requires q != [] && Ranked(d, q)
    ensures OpenAt(q, p) == if p == q[0].price then TotalOpen(q[..Run(q)]) else OpenAt(q[Run(q)..], p)
  {
    var n := Run(q);
    RestIsBehind(d, q);
    assert q == q[..n] + q[n..];
    OpenAtConcat(q[..n], q[n..], p);
    OpenAtOnePrice(q[..n], q[0].price, p);
    if p == q[0].price {
      OpenAtNone(q[n..], p);
    }
  }

  /** The best level in front of levels that tell the rest tells the whole queue. */
  lemma {:induction false} BestInFront(d: Side, q: seq<Order>, levels: seq<LevelView>)
    requires q != [] && Ranked(d, q) && Tells(d, levels, q[Run(q)..])
    ensures Tells(d, [BestLevel(q)] + levels, q)
  {
    hide OpenAt, Shown, Priced, Wrap, Run, TotalOpen;
    var all, rest := [BestLevel(q)] + levels, q[Run(q)..];
    forall i | 0 <= i < |levels|
      ensures Ahead(d, q[0].price, levels[i].price)
    {
      ShownBehind(d, q, levels, i);
    }
    forall p: Price
      ensures Shown(all, p) <==> Priced(q, p)
    {
      ShownCons(BestLevel(q), levels, p);
      PricedSplit(q, p);
    }
    forall i | 0 <= i < |all|
      ensures all[i].totalSize == Wrap(OpenAt(q, all[i].price))
    {
      OpenAtSplit(d, q, all[i].price);
    }
  }

  lemma {:induction false} ShownBehind(d: Side, q: seq<Order>, levels: seq<LevelView>, i: nat)
    requires q != [] && Ranked(d, q) && i < |levels|
    requires forall p :: Shown(levels, p) <==> Priced(q[Run(q)..], p)
    ensures Ahead(d, q[0].price, levels[i].price)
  {
    RestIsBehind(d, q);
    assert Shown(levels, levels[i].price);
    assert Priced(q[Run(q)..], levels[i].price);
  }

  /** The levels of a queue in priority order tell it exactly. */
  lemma {:induction false} LevelsTell(d: Side, q: seq<Order>)
    requires Ranked(d, q)
    ensures Tells(d, Levels(q), q)
    decreases |q|
  {
    if q != [] {
      hide Tells, Run, BestLevel;
      RestIsBehind(d, q);
      LevelsTell(d, q[Run(q)..]);
      BestInFront(d, q, Levels(q[Run(q)..]));
    }
  }

  /** The first `depth` of these levels: fewer only when there are no more. */
  ghost predicate CutTo(shown: seq<LevelView>, all: seq<LevelView>, depth: nat) {
    shown <= all && |shown| <= depth && (|shown| == depth || shown == all)
  }

  /**
   In every reachable state a snapshot shows the best `depth` prices of each side, each
   with everything that rests there, and all of them when there are no more than that.
   */
  lemma {:induction false} SnapshotsTell(commands: seq<Command>, s: Uint32, depth: nat)
    ensures var st := RunState(INITIAL, commands);
            && Step(st, Snapshot(s, depth)).state == st
            && match Step(st, Snapshot(s, depth)).response
               case SnapshotReply(None) => s !in st.books
               case SnapshotReply(Some(r)) =>
                 && s in st.books && r.instrument == s
                 && var b := st.books[s];
                 && Tells(Buy, Levels(b.bids), b.bids) && CutTo(r.bids, Levels(b.bids), depth)
                 && Tells(Sell, Levels(b.asks), b.asks) && CutTo(r.asks, Levels(b.asks), depth)
               case Events(_) => false
  {
    hide Tells, Levels, Live, DistinctKeys, Uncrossed, IndexAgrees;
    EveryRunKeeps(commands);
    var st := RunState(INITIAL, commands);
    if s in st.books {
      assert BookInv(st.books[s]);
      LevelsTell(Buy, st.books[s].bids);
      LevelsTell(Sell, st.books[s].asks);
    }
  }
}
