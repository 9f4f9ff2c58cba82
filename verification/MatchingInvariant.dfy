/** Every command keeps the books sound and uncrossed and the index in agreement with them. */
module MatchingInvariant {
  import opened Domain
  import opened PriceTime
  import opened PriceTimeFacts
  import opened MatchingSpec

  // ---------- one book ----------

  ghost predicate StrictlyBelow(d: Side, own: seq<Order>, other: seq<Order>) {
    forall i, j :: 0 <= i < |own| && 0 <= j < |other| ==>
      if d == Buy then own[i].price < other[j].price else other[j].price < own[i].price
  }

  lemma {:induction false} GreedyUncrossed(own: seq<Order>, q: seq<Order>, d: Side, pricing: Pricing, open: Uint64)
    requires SideInv(Opposite(d), q) && StrictlyBelow(d, own, q)
    ensures StrictlyBelow(d, own, Greedy(q, d, pricing, open).rest)
  {
    GreedyIsFill(q, d, pricing, open);
    var f := Greedy(q, d, pricing, open);
    forall j | 0 <= j < |f.rest|
      ensures j + |f.filled| < |q| && f.rest[j].price == q[j + |f.filled|].price
    {
    }
  }

  /** A remainder rests strictly away from everything that was left on the other side. */
  lemma {:induction false} RestUncrossed(own: seq<Order>, q: seq<Order>, d: Side, o: Order, size: Uint64)
    requires SideInv(Opposite(d), q) && StrictlyBelow(d, own, q)
    requires 0 < Greedy(q, d, Limit(o.price), size).open
    ensures StrictlyBelow(d, Join(d, own, o), Greedy(q, d, Limit(o.price), size).rest)
  {
    hide FillsPrefix, CutsNext, CrossingPrefix, Greedy;
    GreedyIsFill(q, d, Limit(o.price), size);
    GreedyKeeps(q, d, Limit(o.price), size);
    GreedyUncrossed(own, q, d, Limit(o.price), size);
    var rest := Greedy(q, d, Limit(o.price), size).rest;
    var i := Slot(d, own, o.price);
    var r := Join(d, own, o);
    forall a, b | 0 <= a < |r| && 0 <= b < |rest|
      ensures if d == Buy then r[a].price < rest[b].price else rest[b].price < r[a].price
    {
      if a == i {
        assert !Crosses(d, Limit(o.price), rest[0].price);
        assert b > 0 ==> !Ahead(Opposite(d), rest[b].price, rest[0].price);
      } else {
        assert r[a] == own[if a < i then a else a - 1];
      }
    }
  }

  lemma {:induction false} ExecuteKey(b: Book, key: Key, d: Side, pricing: Pricing, size: Uint64, sequence: Uint64,
                                      k: Key)
    requires BookInv(b)
    ensures var x := Execute(b, key, d, pricing, size, sequence);
            && (Holds(x.book.Half(d), k) <==> Holds(b.Half(d), k) || (x.rested && k == key))
            && (Holds(x.book.Half(Opposite(d)), k) <==> Holds(b.Half(Opposite(d)), k) && k !in x.fill.filled)
            && (k in x.fill.filled ==> Holds(b.Half(Opposite(d)), k))
  {
    var x := Execute(b, key, d, pricing, size, sequence);
    GreedyKey(b.Half(Opposite(d)), d, pricing, size, k);
    if x.rested {
      JoinKey(d, b.Half(d), Order(key, d, pricing.price, x.fill.open, sequence), k);
    }
  }

  lemma {:induction false} ExecuteKeeps(b: Book, key: Key, d: Side, pricing: Pricing, size: Uint64, sequence: Uint64)
    requires BookInv(b) && !Rests(b, key)
    ensures BookInv(Execute(b, key, d, pricing, size, sequence).book)
  {
    var x := Execute(b, key, d, pricing, size, sequence);
    var own, other := b.Half(d), b.Half(Opposite(d));
    assert StrictlyBelow(d, own, other);
    GreedyKeeps(other, d, pricing, size);
    if x.rested {
      var o := Order(key, d, pricing.price, x.fill.open, sequence);
      JoinKeeps(d, own, o);
      RestUncrossed(own, other, d, o, size);
    } else {
      GreedyUncrossed(own, other, d, pricing, size);
    }
    assert StrictlyBelow(d, x.book.Half(d), x.book.Half(Opposite(d)));
    forall k
      ensures !(Holds(x.book.bids, k) && Holds(x.book.asks, k))
    {
      ExecuteKey(b, key, d, pricing, size, sequence, k);
    }
  }

  lemma {:induction false} RemovalKeeps(b: Book, d: Side, i: nat)
    requires BookInv(b) && i < |b.Half(d)|
    ensures var b' := b.With(d, RemoveAt(b.Half(d), i));
            && BookInv(b')
            && (forall k :: Rests(b', k) <==> Rests(b, k) && k != b.Half(d)[i].key)
  {
    var own := b.Half(d);
    var b' := b.With(d, RemoveAt(own, i));
    RemoveKeeps(d, own, i);
    assert forall j :: 0 <= j < |RemoveAt(own, i)| ==> RemoveAt(own, i)[j] == own[if j < i then j else j + 1];
    forall k
      ensures Rests(b', k) <==> Rests(b, k) && k != own[i].key
      ensures !(Holds(b'.bids, k) && Holds(b'.asks, k))
    {
      RemoveKey(d, own, i, k);
      assert Holds(own, own[i].key);
    }
  }

  lemma {:induction false} ResizeBookKeeps(b: Book, d: Side, i: nat, size: Uint64)
    requires BookInv(b) && i < |b.Half(d)| && 0 < size
    ensures var b' := b.With(d, Resized(b.Half(d), i, size));
            && BookInv(b')
            && (forall k :: Rests(b', k) <==> Rests(b, k))
  {
    ResizeKeeps(d, b.Half(d), i, size);
  }

  // ---------- what a book operation does to the set of resting keys ----------

  lemma {:induction false} SubmitToBookKeeps(b: Book, o: SubmitOrder, sequence: Uint64)
    requires BookInv(b) && !Rests(b, o.key)
    ensures var r := SubmitToBook(b, o, sequence);
            && BookInv(r.book)
            && (forall k :: Rests(r.book, k) <==> (Rests(b, k) && k !in r.filled) || (r.rested && k == o.key))
            && (forall k :: k in r.filled ==> Rests(b, k))
  {
    ExecuteKeeps(b, o.key, o.direction, o.pricing, o.size, sequence);
    var r := SubmitToBook(b, o, sequence);
    forall k
      ensures Rests(r.book, k) <==> (Rests(b, k) && k !in r.filled) || (r.rested && k == o.key)
      ensures k in r.filled ==> Rests(b, k)
    {
      ExecuteKey(b, o.key, o.direction, o.pricing, o.size, sequence, k);
    }
  }

  lemma {:induction false} UpdateInBookKeeps(s: Uint32, b: Book, d: Side, u: UpdateOrder, sequence: Uint64)
    requires BookInv(b) && Holds(b.Half(d), u.key) && 0 < u.size
    ensures var r := UpdateInBook(s, b, d, u, sequence);
            && r.applied && BookInv(r.book)
            && (forall k :: Rests(r.book, k) <==>
                  (Rests(b, k) && k !in r.filled && k != u.key) || (r.rested && k == u.key))
            && (forall k :: k in r.filled ==> Rests(b, k) && k != u.key)
  {
    var own := b.Half(d);
    var i := Find(own, u.key);
    var r := UpdateInBook(s, b, d, u, sequence);
    if ReducesInPlace(own[i], u) {
      ResizeBookKeeps(b, d, i, u.size);
    } else {
      RemovalKeeps(b, d, i);
      var b' := b.With(d, RemoveAt(own, i));
      ExecuteKeeps(b', u.key, d, u.pricing, u.size, sequence);
      forall k
        ensures Rests(r.book, k) <==>
          (Rests(b, k) && k !in r.filled && k != u.key) || (r.rested && k == u.key)
        ensures k in r.filled ==> Rests(b, k) && k != u.key
      {
        ExecuteKey(b', u.key, d, u.pricing, u.size, sequence, k);
        assert Rests(b', k) <==> Rests(b, k) && k != u.key;
      }
    }
  }

  lemma {:induction false} CancelInBookKeeps(s: Uint32, b: Book, d: Side, key: Key)
    requires BookInv(b) && Holds(b.Half(d), key)
    ensures var r := CancelInBook(s, b, d, key);
            && r.applied && BookInv(r.book)
            && (forall k :: Rests(r.book, k) <==> Rests(b, k) && k != key)
  {
    RemovalKeeps(b, d, Find(b.Half(d), key));
  }

  // ---------- the engine ----------

  /** An active key always has its book, and rests there. */
  lemma {:induction false} ActiveRests(st: State, k: Key)
    requires IndexAgrees(st) && k in st.owner
    ensures st.owner[k] in st.books && Rests(st.books[st.owner[k]], k)
  {
    assert Rests(BookOf(st.books, st.owner[k]), k);
  }

  /** Replacing one book is sound when the index changes for that book only, and to match it. */
  lemma {:induction false} ReplaceBookKeeps(st: State, s: Uint32, b: Book, owner: map<Key, Uint32>, next: Uint64)
    requires Inv(st) && s != 0 && BookInv(b)
    requires forall k :: Rests(b, k) <==> k in owner && owner[k] == s
    requires forall k :: k in owner && owner[k] != s ==> k in st.owner && st.owner[k] == owner[k]
    requires forall k :: k in st.owner && st.owner[k] != s ==> k in owner && owner[k] == st.owner[k]
    ensures Inv(State(st.books[s := b], owner, next))
  {
    var t := State(st.books[s := b], owner, next);
    forall s': Uint32, k: Key
      ensures Rests(BookOf(t.books, s'), k) <==> k in t.owner && t.owner[k] == s'
    {
      if s' != s {
        assert BookOf(t.books, s') == BookOf(st.books, s');
        assert Rests(BookOf(st.books, s'), k) <==> k in st.owner && st.owner[k] == s';
      }
    }
  }

  /** Recording a book result in the index: erase what was filled, keep or drop the aggressor. */
  lemma {:induction false} RecordKeeps(st: State, s: Uint32, r: BookResult, key: Key, owner: map<Key, Uint32>,
                                       next: Uint64)
    requires Inv(st) && s != 0 && BookInv(r.book)
    requires key in st.owner ==> st.owner[key] == s
    requires forall k :: Rests(r.book, k) <==>
      (Rests(BookOf(st.books, s), k) && k !in r.filled && k != key) || (r.rested && k == key)
    requires forall k :: k in r.filled ==> Rests(BookOf(st.books, s), k)
    requires forall k :: k in owner <==> (k in st.owner && k !in r.filled && k != key) || (r.rested && k == key)
    requires forall k :: k in owner ==> owner[k] == if k == key then s else st.owner[k]
    ensures Inv(State(st.books[s := r.book], owner, next))
  {
    hide BookInv, Rests;
    forall k
      ensures Rests(r.book, k) <==> k in owner && owner[k] == s
      ensures k in r.filled ==> k in st.owner && st.owner[k] == s
    {
      assert Rests(BookOf(st.books, s), k) <==> k in st.owner && st.owner[k] == s;
    }
    ReplaceBookKeeps(st, s, r.book, owner, next);
  }

  lemma InvBook(st: State, s: Uint32)
    requires Inv(st)
    ensures BookInv(BookOf(st.books, s))
    ensures forall k :: Rests(BookOf(st.books, s), k) <==> k in st.owner && st.owner[k] == s
  {
  }

  lemma {:induction false} SubmitKeeps(st: State, o: SubmitOrder)
    requires Inv(st)
    ensures Inv(SubmitStep(st, o).state)
  {
    hide Inv, BookInv, Rests, SubmitToBook, BookOf;
    if SubmitFault(o) == None && o.key !in st.owner {
      var b := BookOf(st.books, o.instrument);
      InvBook(st, o.instrument);
      SubmitToBookKeeps(b, o, st.next);
      var t := SubmitStep(st, o).state;
      RecordKeeps(st, o.instrument, SubmitToBook(b, o, st.next), o.key, t.owner, t.next);
    }
  }

  lemma HoldingSideHolds(b: Book, k: Key)
    requires BookInv(b) && Rests(b, k)
    ensures Holds(b.Half(HoldingSide(b, k)), k)
  {
  }

  lemma {:induction false} UpdateKeeps(st: State, u: UpdateOrder)
    requires Inv(st)
    ensures Inv(UpdateStep(st, u).state)
  {
    hide BookInv, Rests, UpdateInBook, IndexAgrees;
    if UpdateFault(u) == None && u.key in st.owner {
      ActiveRests(st, u.key);
      var s := st.owner[u.key];
      var b := st.books[s];
      HoldingSideHolds(b, u.key);
      UpdateInBookKeeps(s, b, HoldingSide(b, u.key), u, st.next);
      var t := UpdateStep(st, u).state;
      RecordKeeps(st, s, UpdateInBook(s, b, HoldingSide(b, u.key), u, st.next), u.key, t.owner, t.next);
    }
  }

  lemma {:induction false} CancelKeeps(st: State, key: Key)
    requires Inv(st)
    ensures Inv(CancelStep(st, key).state)
  {
    hide BookInv, Rests, IndexAgrees;
    if key in st.owner {
      ActiveRests(st, key);
      var s := st.owner[key];
      var b := st.books[s];
      HoldingSideHolds(b, key);
      CancelInBookKeeps(s, b, HoldingSide(b, key), key);
      var t := CancelStep(st, key).state;
      RecordKeeps(st, s, CancelInBook(s, b, HoldingSide(b, key), key), key, t.owner, t.next);
    }
  }

  lemma {:induction false} StepKeeps(st: State, c: Command)
    requires Inv(st)
    ensures Inv(Step(st, c).state)
  {
    match c
    case Submit(o) => SubmitKeeps(st, o);
    case Update(u) => UpdateKeeps(st, u);
    case Cancel(k) => CancelKeeps(st, k);
    case Snapshot(s, depth) =>
  }

  /** Over any run from an empty engine: books sound and uncrossed, index exact. */
  lemma {:induction false} RunKeeps(st: State, commands: seq<Command>)
    requires Inv(st)
    ensures Inv(RunState(st, commands))
    decreases |commands|
  {
    if commands != [] {
      StepKeeps(st, commands[0]);
      RunKeeps(Step(st, commands[0]).state, commands[1..]);
    }
  }

  lemma EveryRunKeeps(commands: seq<Command>)
    ensures Inv(RunState(INITIAL, commands))
  {
    RunKeeps(INITIAL, commands);
  }

  lemma InitialInv()
    ensures Inv(INITIAL)
  {
  }
}
