/** Bounds on the commands alone under which a whole run can be published. */
module PublishBound {
  import opened Domain
  import opened PriceTime
  import opened PriceTimeFacts
  import opened MatchingSpec
  import opened MatchingInvariant
  import opened Conservation
  import opened FeedEncoders
  import opened TopUpdates

  function SizeOf(c: Command): nat {
    match c
    case Submit(o) => o.size
    case Update(u) => u.size
    case _ => 0
  }

  /** The sum of the sizes that the commands name, whether they are taken or not. */
  function Asked(commands: seq<Command>): nat {
    if commands == [] then 0 else SizeOf(commands[0]) + Asked(commands[1..])
  }

  /** What rests on a symbol grows by at most the command's size. */
  lemma {:induction false} RestingGrows(st: State, c: Command, s: Uint32)
    requires Inv(st)
    ensures Resting(Step(st, c).state, s) <= Resting(st, s) + SizeOf(c)
  {
    hide Inv, Step, Resting, OpenOf, ReportedBy;
    StepBalanced(st, c, s);
  }

  lemma {:induction false} BestSumBound(q: seq<Order>)
    ensures BestSum(q) <= TotalOpen(q)
  {
    assert q == q[..Run(q)] + q[Run(q)..];
    TotalOpenConcat(q[..Run(q)], q[Run(q)..]);
  }

  lemma {:induction false} RestingFits(st: State)
    requires forall s: Uint32 :: Resting(st, s) < WORD
    ensures Fits(st)
  {
    hide BestSum;
    forall s: Uint32, d: Side
      ensures BestSum(BookOf(st.books, s).Half(d)) < WORD
    {
      assert Resting(st, s) < WORD;
      BestSumBound(BookOf(st.books, s).Half(d));
    }
  }

  lemma {:induction false} AskedFits(st: State, commands: seq<Command>)
    requires Inv(st) && forall s: Uint32 :: Resting(st, s) + Asked(commands) < WORD
    ensures RunFits(st, commands)
    decreases |commands|
  {
    hide Inv, Step, Resting, Fits;
    assert forall s: Uint32 :: Resting(st, s) < WORD by {
      forall s: Uint32
        ensures Resting(st, s) < WORD
      {
        assert Resting(st, s) + Asked(commands) < WORD;
      }
    }
    RestingFits(st);
    if commands != [] {
      var st' := Step(st, commands[0]).state;
      StepKeeps(st, commands[0]);
      forall s: Uint32
        ensures Resting(st', s) + Asked(commands[1..]) < WORD
      {
        RestingGrows(st, commands[0], s);
        assert Resting(st, s) + Asked(commands) < WORD;
      }
      AskedFits(st', commands[1..]);
    }
  }

  /** Commands whose sizes sum to less than 2^64 give a run that can be published completely. */
  lemma {:induction false} AskedPublishable(commands: seq<Command>)
    requires Asked(commands) < WORD
    ensures RunFits(INITIAL, commands) && RunPublishable(INITIAL, commands)
  {
    hide RunFits, RunPublishable, Asked;
    EveryRunKeeps([]);
    AskedFits(INITIAL, commands);
    FittingRunsPublish(INITIAL, commands);
  }

  /** A run sends at most two updates a command. */
  lemma {:induction false} UpdatesBound(st: State, commands: seq<Command>)
    requires Inv(st)
    ensures |Updates(EventsOf(st, commands))| <= 2 * |commands|
    decreases |commands|
  {
    hide Inv, Step, Top, TopEvent;
    if commands != [] {
      var st' := Step(st, commands[0]).state;
      StepKeeps(st, commands[0]);
      StepTells(st, commands[0]);
      UpdatesBound(st', commands[1..]);
      UpdatesConcat(EventsIn(Step(st, commands[0]).response), EventsOf(st', commands[1..]));
    }
  }

  /** The bound on sizes is sharp: two commands that name exactly 2^64 cannot be published completely. */
  lemma {:induction false} BoundIsSharp()
    ensures Asked([HalfWordBid(1), HalfWordBid(2)]) == WORD
            && !RunPublishable(INITIAL, [HalfWordBid(1), HalfWordBid(2)])
  {
    hide RunPublishable;
    var commands := [HalfWordBid(1), HalfWordBid(2)];
    assert commands[1..] == [HalfWordBid(2)] && commands[1..][1..] == [];
    assert Asked(commands[1..]) == 0x8000_0000_0000_0000;
    WrappedLevelIsRefused();
  }
}
