/** What the flat queue operations keep, and the declarative reading of `Greedy`. */
module PriceTimeFacts {
  import opened Domain
  import opened PriceTime

  lemma {:induction false} TotalOpenConcat(a: seq<Order>, b: seq<Order>)
    ensures TotalOpen(a + b) == TotalOpen(a) + TotalOpen(b)
  {
    if a == [] {
      assert a + b == b;
    } else {
      assert (a + b)[1..] == a[1..] + b;
      TotalOpenConcat(a[1..], b);
    }
  }

  lemma {:induction false} TotalOpenAt(q: seq<Order>, i: nat)
    requires i < |q|
    ensures TotalOpen(q) == TotalOpen(q[..i]) + q[i].open + TotalOpen(q[i + 1..])
  {
    assert q == q[..i] + ([q[i]] + q[i + 1..]);
    TotalOpenConcat(q[..i], [q[i]] + q[i + 1..]);
    TotalOpenConcat([q[i]], q[i + 1..]);
    assert TotalOpen([q[i]]) == q[i].open;
  }

  lemma {:induction false} TotalOpenRemove(q: seq<Order>, i: nat)
    requires i < |q|
    ensures TotalOpen(RemoveAt(q, i)) == TotalOpen(q) - q[i].open
  {
    TotalOpenAt(q, i);
    TotalOpenConcat(q[..i], q[i + 1..]);
  }

  lemma {:induction false} TotalOpenJoin(d: Side, q: seq<Order>, o: Order)
    ensures TotalOpen(Join(d, q, o)) == TotalOpen(q) + o.open
  {
    var i := Slot(d, q, o.price);
    var r := Join(d, q, o);
    assert r[i] == o && r[..i] == q[..i] && r[i + 1..] == q[i..];
    TotalOpenAt(r, i);
    assert q == q[..i] + q[i..];
    TotalOpenConcat(q[..i], q[i..]);
  }

  lemma {:induction false} TotalOpenResize(q: seq<Order>, i: nat, size: Uint64)
    requires i < |q|
    ensures TotalOpen(Resized(q, i, size)) == TotalOpen(q) - q[i].open + size
  {
    var r := Resized(q, i, size);
    TotalOpenAt(q, i);
    TotalOpenAt(r, i);
    assert r[..i] == q[..i] && r[i + 1..] == q[i + 1..];
  }

  lemma {:induction false} TradedConcat(a: seq<Trade>, b: seq<Trade>)
    ensures Traded(a + b) == Traded(a) + Traded(b)
  {
    if a == [] {
      assert a + b == b;
    } else {
      assert (a + b)[1..] == a[1..] + b;
      TradedConcat(a[1..], b);
    }
  }

  // ---------- Greedy is exactly price-time priority ----------

  function FullTrade(o: Order): Trade {
    Trade(o.key, o.price, o.open)
  }

  lemma {:induction false} PrefixStep(q: seq<Order>, g: Fill)
    requires q != [] && FillsPrefix(q[1..], g)
    ensures FillsPrefix(q, Prepend([FullTrade(q[0])], [q[0].key], g))
  {
    var f := Prepend([FullTrade(q[0])], [q[0].key], g);
    forall i | 0 <= i < |f.filled|
      ensures f.filled[i] == q[i].key && f.trades[i] == FullTrade(q[i])
    {
      if i > 0 {
        assert g.filled[i - 1] == q[1..][i - 1].key;
        assert g.trades[i - 1] == FullTrade(q[1..][i - 1]);
      }
    }
  }

  lemma {:induction false} CutStep(q: seq<Order>, g: Fill)
    requires q != [] && FillsPrefix(q[1..], g) && CutsNext(q[1..], g)
    ensures var f := Prepend([FullTrade(q[0])], [q[0].key], g);
            FillsPrefix(q, f) && CutsNext(q, f)
  {
    PrefixStep(q, g);
    var n := |g.filled|;
    assert q[1..][n..] == q[n + 1..];
    if |g.trades| != n {
      assert q[1..][n + 1..] == q[n + 2..];
    }
  }

  lemma {:induction false} CrossingStep(q: seq<Order>, d: Side, pricing: Pricing, n: nat)
    requires q != [] && Crosses(d, pricing, q[0].price) && CrossingPrefix(q[1..], d, pricing, n)
    ensures CrossingPrefix(q, d, pricing, n + 1)
  {
    forall i | 0 <= i < n + 1 && i < |q|
      ensures Crosses(d, pricing, q[i].price)
    {
      if i > 0 {
        assert q[i] == q[1..][i - 1];
      }
    }
  }

  lemma {:induction false} CutIsFill(q: seq<Order>, d: Side, pricing: Pricing, open: Uint64)
    requires q != [] && Crosses(d, pricing, q[0].price) && 0 < open < q[0].open
    ensures IsFill(q, d, pricing, open, Greedy(q, d, pricing, open))
  {
    var f := Greedy(q, d, pricing, open);
    assert f.trades == [Trade(q[0].key, q[0].price, open)] && f.trades[1..] == [];
    assert CutsNext(q, f);
    assert CrossingPrefix(q, d, pricing, 1);
  }

  lemma {:induction false} FillStep(q: seq<Order>, d: Side, pricing: Pricing, open: Uint64, g: Fill)
    requires q != [] && Crosses(d, pricing, q[0].price) && q[0].open <= open
    requires IsFill(q[1..], d, pricing, open - q[0].open, g)
    ensures IsFill(q, d, pricing, open, Prepend([FullTrade(q[0])], [q[0].key], g))
  {
    CutStep(q, g);
    CrossingStep(q, d, pricing, |g.trades|);
    TradedConcat([FullTrade(q[0])], g.trades);
  }

  lemma {:induction false} GreedyIsFill(q: seq<Order>, d: Side, pricing: Pricing, open: Uint64)
    requires forall i :: 0 <= i < |q| ==> 0 < q[i].open
    ensures IsFill(q, d, pricing, open, Greedy(q, d, pricing, open))
    decreases |q|
  {
    if open == 0 || q == [] || !Crosses(d, pricing, q[0].price) {
    } else if q[0].open <= open {
      GreedyIsFill(q[1..], d, pricing, open - q[0].open);
      FillStep(q, d, pricing, open, Greedy(q[1..], d, pricing, open - q[0].open));
    } else {
      CutIsFill(q, d, pricing, open);
    }
  }

  lemma {:induction false} PrefixUnstep(q: seq<Order>, f: Fill)
    requires FillsPrefix(q, f) && CutsNext(q, f) && f.filled != []
    ensures var g := Fill(f.rest, f.open, f.trades[1..], f.filled[1..]);
            && f == Prepend([FullTrade(q[0])], [q[0].key], g)
            && FillsPrefix(q[1..], g) && CutsNext(q[1..], g)
  {
    var g := Fill(f.rest, f.open, f.trades[1..], f.filled[1..]);
    forall i | 0 <= i < |g.filled|
      ensures g.filled[i] == q[1..][i].key && g.trades[i] == FullTrade(q[1..][i])
    {
      assert f.filled[i + 1] == q[i + 1].key;
      assert f.trades[i + 1] == FullTrade(q[i + 1]);
    }
    var n := |f.filled|;
    assert q[1..][n - 1..] == q[n..];
    if |f.trades| != n {
      assert q[1..][n..] == q[n + 1..];
    }
    assert f.filled[0] == q[0].key;
    assert f.trades[0] == FullTrade(q[0]);
  }

  /** With nothing filled completely, at most the first order is cut. */
  lemma {:induction false} FirstCutIsGreedy(q: seq<Order>, d: Side, pricing: Pricing, open: Uint64, f: Fill)
    requires IsFill(q, d, pricing, open, f) && f.filled == []
    requires forall i :: 0 <= i < |q| ==> 0 < q[i].open
    ensures f == Greedy(q, d, pricing, open)
  {
    if f.trades == [] {
      assert f.rest == q;
    } else {
      assert f.trades == [f.trades[0]] && Traded(f.trades) == f.trades[0].size;
      assert Crosses(d, pricing, q[0].price);
    }
  }

  lemma {:induction false} CrossingTail(q: seq<Order>, d: Side, pricing: Pricing, n: nat)
    requires CrossingPrefix(q, d, pricing, n + 1) && q != []
    ensures Crosses(d, pricing, q[0].price) && CrossingPrefix(q[1..], d, pricing, n)
  {
    forall i | 0 <= i < n && i < |q[1..]|
      ensures Crosses(d, pricing, q[1..][i].price)
    {
      assert Crosses(d, pricing, q[i + 1].price);
    }
  }

  /** `IsFill` has one answer: nothing but the greedy fill satisfies price-time priority. */
  lemma {:induction false} FillIsGreedy(q: seq<Order>, d: Side, pricing: Pricing, open: Uint64, f: Fill)
    requires forall i :: 0 <= i < |q| ==> 0 < q[i].open
    requires IsFill(q, d, pricing, open, f)
    ensures f == Greedy(q, d, pricing, open)
    decreases |q|
  {
    hide FillsPrefix, CutsNext, CrossingPrefix, Crosses, Exhausts;
    if f.filled == [] {
      FirstCutIsGreedy(q, d, pricing, open, f);
    } else {
      FilledNonEmpty(q, f);
      PrefixUnstep(q, f);
      CrossingTail(q, d, pricing, |f.trades| - 1);
      var g := Fill(f.rest, f.open, f.trades[1..], f.filled[1..]);
      TradedConcat([FullTrade(q[0])], g.trades);
      SameExhausts(d, pricing, f, g);
      FillIsGreedy(q[1..], d, pricing, open - q[0].open, g);
    }
  }

  lemma FilledNonEmpty(q: seq<Order>, f: Fill)
    requires FillsPrefix(q, f) && f.filled != []
    ensures q != [] && f.trades != []
  {
  }

  lemma SameExhausts(d: Side, pricing: Pricing, f: Fill, g: Fill)
    requires f.open == g.open && f.rest == g.rest
    ensures Exhausts(d, pricing, f) <==> Exhausts(d, pricing, g)
  {
  }

  lemma FillUnique(q: seq<Order>, d: Side, pricing: Pricing, open: Uint64, f: Fill)
    requires forall i :: 0 <= i < |q| ==> 0 < q[i].open
    ensures IsFill(q, d, pricing, open, f) <==> f == Greedy(q, d, pricing, open)
  {
    GreedyIsFill(q, d, pricing, open);
    if IsFill(q, d, pricing, open, f) {
      FillIsGreedy(q, d, pricing, open, f);
    }
  }

  /** Quantity is conserved by a fill: what leaves the queue is what was traded. */
  lemma {:induction false} GreedyConserves(q: seq<Order>, d: Side, pricing: Pricing, open: Uint64)
    ensures var f := Greedy(q, d, pricing, open);
            && f.open + Traded(f.trades) == open
            && TotalOpen(f.rest) + Traded(f.trades) == TotalOpen(q)
    decreases |q|
  {
    if open == 0 || q == [] || !Crosses(d, pricing, q[0].price) {
    } else if q[0].open <= open {
      GreedyConserves(q[1..], d, pricing, open - q[0].open);
      TradedConcat([Trade(q[0].key, q[0].price, q[0].open)],
                   Greedy(q[1..], d, pricing, open - q[0].open).trades);
    } else {
      var f := Greedy(q, d, pricing, open);
      assert f.rest[1..] == q[1..];
      assert f.trades[1..] == [];
    }
  }

  // ---------- what the operations keep ----------

  lemma {:induction false} HoldsCons(q: seq<Order>, k: Key)
    requires q != []
    ensures Holds(q, k) <==> q[0].key == k || Holds(q[1..], k)
  {
    if Holds(q, k) {
      var i := Find(q, k);
      if i > 0 {
        assert q[1..][i - 1].key == k;
      }
    }
    if Holds(q[1..], k) {
      assert q[Find(q[1..], k) + 1].key == k;
    }
  }

  lemma {:induction false} TailKeeps(d: Side, q: seq<Order>)
    requires SideInv(d, q) && q != []
    ensures SideInv(d, q[1..]) && !Holds(q[1..], q[0].key)
  {
    forall i | 0 <= i < |q[1..]|
      ensures q[1..][i].key != q[0].key
    {
      assert q[1..][i] == q[i + 1];
    }
  }

  lemma {:induction false} GreedyKeeps(q: seq<Order>, d: Side, pricing: Pricing, open: Uint64)
    requires SideInv(Opposite(d), q)
    ensures SideInv(Opposite(d), Greedy(q, d, pricing, open).rest)
    decreases |q|
  {
    hide SideInv, TotalOpen;
    if open == 0 || q == [] || !Crosses(d, pricing, q[0].price) {
    } else if q[0].open <= open {
      TailKeeps(Opposite(d), q);
      GreedyKeeps(q[1..], d, pricing, open - q[0].open);
    } else {
      ResizeKeeps(Opposite(d), q, 0, q[0].open - open);
      assert Greedy(q, d, pricing, open).rest == Resized(q, 0, q[0].open - open);
    }
  }

  /** A key of the queue either stays or is reported filled, never both. */
  lemma {:induction false} GreedyKey(q: seq<Order>, d: Side, pricing: Pricing, open: Uint64, k: Key)
    requires SideInv(Opposite(d), q)
    ensures var f := Greedy(q, d, pricing, open);
            && (Holds(q, k) <==> Holds(f.rest, k) || k in f.filled)
            && !(Holds(f.rest, k) && k in f.filled)
    decreases |q|
  {
    if open == 0 || q == [] || !Crosses(d, pricing, q[0].price) {
    } else if q[0].open <= open {
      TailKeeps(Opposite(d), q);
      HoldsCons(q, k);
      GreedyKey(q[1..], d, pricing, open - q[0].open, k);
      GreedyKey(q[1..], d, pricing, open - q[0].open, q[0].key);
    } else {
      ResizeKeeps(Opposite(d), q, 0, q[0].open - open);
      assert Greedy(q, d, pricing, open).rest == Resized(q, 0, q[0].open - open);
    }
  }

  lemma {:induction false} JoinKeeps(d: Side, q: seq<Order>, o: Order)
    requires SideInv(d, q) && !Holds(q, o.key) && o.direction == d && 0 < o.open
    ensures SideInv(d, Join(d, q, o))
  {
    var i := Slot(d, q, o.price);
    var r := Join(d, q, o);
    forall a, b | 0 <= a < b < |r|
      ensures !Ahead(d, r[b].price, r[a].price) && r[a].key != r[b].key
    {
      if a == i {
        assert r[b] == q[b - 1];
        assert !Ahead(d, q[b - 1].price, q[i].price);
      } else if b == i {
        assert r[a] == q[a];
      } else {
        var a' := if a < i then a else a - 1;
        var b' := if b < i then b else b - 1;
        assert r[a] == q[a'] && r[b] == q[b'] && a' < b';
      }
    }
  }

  lemma {:induction false} JoinKey(d: Side, q: seq<Order>, o: Order, k: Key)
    ensures Holds(Join(d, q, o), k) <==> k == o.key || Holds(q, k)
  {
    var i := Slot(d, q, o.price);
    var r := Join(d, q, o);
    if Holds(q, k) {
      var j := Find(q, k);
      assert r[if j < i then j else j + 1].key == k;
    }
    if Holds(r, k) {
      var j := Find(r, k);
      if j != i {
        assert q[if j < i then j else j - 1].key == k;
      }
    }
    assert r[i].key == o.key;
  }

  lemma {:induction false} RemoveKeeps(d: Side, q: seq<Order>, i: nat)
    requires SideInv(d, q) && i < |q|
    ensures SideInv(d, RemoveAt(q, i))
  {
    var r := RemoveAt(q, i);
    assert forall j :: 0 <= j < |r| ==> r[j] == q[if j < i then j else j + 1];
  }

  lemma {:induction false} RemoveKey(d: Side, q: seq<Order>, i: nat, k: Key)
    requires SideInv(d, q) && i < |q|
    ensures Holds(RemoveAt(q, i), k) <==> k != q[i].key && Holds(q, k)
  {
    var r := RemoveAt(q, i);
    if k != q[i].key && Holds(q, k) {
      var j := Find(q, k);
      assert r[if j < i then j else j - 1].key == k;
    }
    if Holds(r, k) {
      var j := Find(r, k);
      assert q[if j < i then j else j + 1].key == k;
    }
  }

  lemma {:induction false} ResizeKeeps(d: Side, q: seq<Order>, i: nat, size: Uint64)
    requires SideInv(d, q) && i < |q| && 0 < size
    ensures SideInv(d, Resized(q, i, size))
    ensures forall k :: Holds(Resized(q, i, size), k) <==> Holds(q, k)
  {
    var r := Resized(q, i, size);
    forall k
      ensures Holds(r, k) <==> Holds(q, k)
    {
      if Holds(q, k) {
        assert r[Find(q, k)].key == k;
      }
      if Holds(r, k) {
        assert q[Find(r, k)].key == k;
      }
    }
  }
}
