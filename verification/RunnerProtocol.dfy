/**
 The threaded runner as a step system: any number of producers, one worker and one
 controller, each advancing by one atomic access to shared state at a time.  The blocking
 queue is a bounded FIFO that refuses pushes once closed and still drains.
 */
module RunnerProtocol {
  import opened Domain
  import opened MatchingSpec
  import opened MatchingInvariant

  /** One call by a producer: the command and the identity of its promise. */
  datatype Job = Job(id: nat, command: Command)

  datatype Worker = Unborn | Waiting | Holding(job: Job) | Executed(last: Job, response: Response) | Exited

  /** Where the thread that calls `start` and `stop` is. */
  datatype Control = Ready | Starting | Launching | Stopping | Closing | Joining

  datatype Machine = Machine(
    accepting: bool, closed: bool,
    capacity: nat, queue: seq<Job>, queueClosed: bool,
    worker: Worker, control: Control, engine: State,
    /** Every call made so far; those past the `accepting` check but not yet pushed; those that threw. */
    calls: set<nat>, inFlight: map<nat, Command>, refused: set<nat>,
    replies: map<nat, Response>,
    /** History: pushes in queue order, and the jobs the engine has executed. */
    log: seq<Job>, executed: seq<Job>)

  datatype Action =
    | Call(id: nat, command: Command)
    | Push(id: nat)
    | StartCheck | StartExchange | Launch
    | StopExchange | MarkClosed | CloseQueue | Join
    | Pop | Execute | Answer | Exit

  function Fresh(capacity: nat): Machine {
    Machine(false, false, capacity, [], false, Unborn, Ready, INITIAL, {}, map[], {}, map[], [], [])
  }

  /** A push blocks while an open queue is full; a pop blocks while an open queue is empty. */
  predicate Enabled(m: Machine, a: Action) {
    match a
    case Call(id, _) => id !in m.calls
    case Push(id) => id in m.inFlight && (m.queueClosed || |m.queue| < m.capacity)
    case StartCheck => m.control == Ready
    case StartExchange => m.control == Starting
    case Launch => m.control == Launching
    case StopExchange => m.control == Ready
    case MarkClosed => m.control == Stopping
    case CloseQueue => m.control == Closing
    case Join => m.control == Joining && m.worker == Exited
    case Pop => m.worker == Waiting && m.queue != []
    case Execute => m.worker.Holding?
    case Answer => m.worker.Executed?
    case Exit => m.worker == Waiting && m.queue == [] && m.queueClosed
  }

  function Perform(m: Machine, a: Action): Machine
    requires Enabled(m, a)
  {
    match a
    case Call(id, command) =>
      if m.accepting then m.(calls := m.calls + {id}, inFlight := m.inFlight[id := command])
      else m.(calls := m.calls + {id}, refused := m.refused + {id})
    case Push(id) =>
      var left := m.inFlight - {id};
      if m.queueClosed then m.(inFlight := left, refused := m.refused + {id})
      else
        var job := Job(id, m.inFlight[id]);
        m.(inFlight := left, queue := m.queue + [job], log := m.log + [job])
    case StartCheck => if m.closed then m else m.(control := Starting)
    case StartExchange => if m.accepting then m.(control := Ready) else m.(accepting := true, control := Launching)
    case Launch => m.(worker := Waiting, control := Ready)
    case StopExchange => if m.accepting then m.(accepting := false, control := Stopping) else m
    case MarkClosed => m.(closed := true, control := Closing)
    case CloseQueue => m.(queueClosed := true, control := Joining)
    case Join => m.(control := Ready)
    case Pop => m.(worker := Holding(m.queue[0]), queue := m.queue[1..])
    case Execute =>
      var job := m.worker.job;
      var o := Step(m.engine, job.command);
      m.(worker := Executed(job, o.response), engine := o.state, executed := m.executed + [job])
    case Answer => m.(worker := Waiting, replies := m.replies[m.worker.last.id := m.worker.response])
    case Exit => m.(worker := Exited)
  }

  /** A behaviour: actions of any threads in any order, each enabled when it happens. */
  ghost predicate Possible(m: Machine, actions: seq<Action>)
    decreases |actions|
  {
    actions != [] ==> Enabled(m, actions[0]) && Possible(Perform(m, actions[0]), actions[1..])
  }

  ghost function Final(m: Machine, actions: seq<Action>): Machine
    requires Possible(m, actions)
    decreases |actions|
  {
    if actions == [] then m else Final(Perform(m, actions[0]), actions[1..])
  }

  // ---------- the invariant ----------

  function Commands(jobs: seq<Job>): (commands: seq<Command>)
    ensures |commands| == |jobs|
  {
    if jobs == [] then [] else Commands(jobs[..|jobs| - 1]) + [jobs[|jobs| - 1].command]
  }

  function Held(w: Worker): seq<Job> {
    if w.Holding? then [w.job] else []
  }

  /** The queue, what the worker holds and what was executed are together what was pushed, in order. */
  ghost predicate NothingLost(m: Machine) {
    m.log == m.executed + Held(m.worker) + m.queue && |m.queue| <= m.capacity
  }

  /** The engine is the fold of the executed commands. */
  ghost predicate Sequential(m: Machine) {
    m.engine == RunState(INITIAL, Commands(m.executed))
  }

  /** The executed jobs that have been answered: all, or all but the one just executed. */
  function AnsweredJobs(m: Machine): seq<Job> {
    if m.worker.Executed? && m.executed != [] then m.executed[..|m.executed| - 1] else m.executed
  }

  /** The sequential engine's response to the i-th of these jobs. */
  ghost function Due(jobs: seq<Job>, i: nat): Response
    requires i < |jobs|
  {
    Step(RunState(INITIAL, Commands(jobs[..i])), jobs[i].command).response
  }

  ghost predicate Logged(jobs: seq<Job>, id: nat) {
    exists i :: 0 <= i < |jobs| && jobs[i].id == id
  }

  /** Each of these jobs has its sequential response, and nothing else has a reply. */
  ghost predicate Replied(replies: map<nat, Response>, jobs: seq<Job>) {
    && (forall id :: id in replies <==> Logged(jobs, id))
    && (forall i :: 0 <= i < |jobs| ==> jobs[i].id in replies && replies[jobs[i].id] == Due(jobs, i))
  }

  ghost predicate Answers(m: Machine) {
    && Replied(m.replies, AnsweredJobs(m))
    && (m.worker.Executed? ==>
          var n := |m.executed| - 1;
          m.executed != [] && m.executed[n] == m.worker.last && m.worker.response == Due(m.executed, n))
  }

  ghost predicate DistinctIds(jobs: seq<Job>) {
    forall i, j :: 0 <= i < j < |jobs| ==> jobs[i].id != jobs[j].id
  }

  /** Every call is in exactly one place: refused, on its way, or pushed. */
  ghost predicate CallsSorted(m: Machine) {
    && DistinctIds(m.log)
    && (forall id :: id in m.calls <==> id in m.refused || id in m.inFlight || Logged(m.log, id))
    && (forall id :: id in m.refused ==> id !in m.inFlight && !Logged(m.log, id))
    && (forall id :: id in m.inFlight ==> !Logged(m.log, id))
  }

  /** How the flags, the controller and the worker's life fit together. */
  ghost predicate Lifecycle(m: Machine) {
    && (m.accepting ==> !m.closed && m.control != Stopping && m.control != Closing && m.control != Joining)
    && (m.queueClosed ==> m.closed)
    && (m.worker == Exited ==> m.queueClosed && m.queue == [])
    && match m.control
       case Ready =>
         if m.closed then !m.accepting && m.queueClosed && m.worker == Exited
         else if m.accepting then m.worker != Unborn else m.worker == Unborn
       case Starting => !m.closed && (m.accepting <==> m.worker != Unborn)
       case Launching => m.accepting && m.worker == Unborn
       case Stopping => !m.closed && m.worker != Unborn
       case Closing => m.closed && !m.queueClosed && m.worker != Unborn
       case Joining => m.queueClosed && m.worker != Unborn
  }

  ghost predicate RunnerInv(m: Machine) {
    NothingLost(m) && Sequential(m) && Answers(m) && CallsSorted(m) && Lifecycle(m)
  }

  // ---------- every step keeps it ----------

  lemma {:induction false} RunSnoc(st: State, commands: seq<Command>, c: Command)
    ensures RunState(st, commands + [c]) == Step(RunState(st, commands), c).state
    decreases |commands|
  {
    hide Step;
    if commands == [] {
      assert ([] + [c])[1..] == [];
    } else {
      assert (commands + [c])[1..] == commands[1..] + [c];
      RunSnoc(Step(st, commands[0]).state, commands[1..], c);
    }
  }

  lemma {:induction false} NothingLostStep(m: Machine, a: Action)
    requires Enabled(m, a) && NothingLost(m) && Lifecycle(m)
    ensures NothingLost(Perform(m, a))
  {
    hide Step;
    var front := m.executed + Held(m.worker);
    if a.Pop? {
      assert m.queue == [m.queue[0]] + m.queue[1..];
      assert m.executed + [] + m.queue == m.executed + [m.queue[0]] + m.queue[1..];
    } else if a.Push? && !m.queueClosed {
      var job := Job(a.id, m.inFlight[a.id]);
      assert front + m.queue + [job] == front + (m.queue + [job]);
    } else if a.Execute? {
      assert m.executed + [m.worker.job] + [] == front;
    }
  }

  lemma {:induction false} SequentialStep(m: Machine, a: Action)
    requires Enabled(m, a) && Sequential(m)
    ensures Sequential(Perform(m, a))
  {
    hide Step, RunState;
    if a.Execute? {
      var executed' := m.executed + [m.worker.job];
      assert executed'[..|executed'| - 1] == m.executed;
      RunSnoc(INITIAL, Commands(m.executed), m.worker.job.command);
    }
  }

  lemma {:induction false} LoggedSnoc(jobs: seq<Job>, job: Job)
    ensures forall id :: Logged(jobs + [job], id) <==> Logged(jobs, id) || id == job.id
  {
    forall id
      ensures Logged(jobs + [job], id) <==> Logged(jobs, id) || id == job.id
    {
      if Logged(jobs, id) {
        var i :| 0 <= i < |jobs| && jobs[i].id == id;
        assert (jobs + [job])[i].id == id;
      }
      assert (jobs + [job])[|jobs|] == job;
    }
  }

  lemma DueSnoc(jobs: seq<Job>, job: Job, i: nat)
    requires i < |jobs|
    ensures Due(jobs + [job], i) == Due(jobs, i)
  {
    assert (jobs + [job])[..i] == jobs[..i];
  }

  lemma {:induction false} RepliedSnoc(replies: map<nat, Response>, jobs: seq<Job>, job: Job, response: Response)
    requires Replied(replies, jobs) && !Logged(jobs, job.id) && response == Due(jobs + [job], |jobs|)
    ensures Replied(replies[job.id := response], jobs + [job])
  {
    hide Due, Logged;
    LoggedSnoc(jobs, job);
    forall i | 0 <= i < |jobs|
      ensures jobs[i].id != job.id && Due(jobs + [job], i) == Due(jobs, i)
    {
      LoggedAt(jobs, i);
      DueSnoc(jobs, job, i);
    }
  }

  lemma LoggedAt(jobs: seq<Job>, i: nat)
    requires i < |jobs|
    ensures Logged(jobs, jobs[i].id)
  {
  }

  lemma {:induction false} LoggedPrefix(log: seq<Job>, n: nat)
    requires n < |log| && DistinctIds(log)
    ensures !Logged(log[..n], log[n].id)
  {
    assert forall i :: 0 <= i < n ==> log[..n][i] == log[i];
  }

  /** The job just executed is answered last, and was not answered before. */
  lemma {:induction false} LastUnanswered(m: Machine)
    requires NothingLost(m) && Answers(m) && DistinctIds(m.log) && m.worker.Executed?
    ensures m.executed == AnsweredJobs(m) + [m.worker.last] && !Logged(AnsweredJobs(m), m.worker.last.id)
  {
    hide DistinctIds, Logged, Replied, Due;
    var n := |m.executed| - 1;
    LoggedPrefix(m.log, n);
    assert m.log[..n] == m.executed[..n] && m.log[n] == m.executed[n];
  }

  lemma {:induction false} AnswersStep(m: Machine, a: Action)
    requires Enabled(m, a) && NothingLost(m) && Sequential(m) && Answers(m) && DistinctIds(m.log) && Lifecycle(m)
    ensures Answers(Perform(m, a))
  {
    hide Step, RunState, Commands, Replied, Logged, DistinctIds;
    if a.Execute? {
      assert (m.executed + [m.worker.job])[..|m.executed|] == m.executed;
    } else if a.Answer? {
      LastUnanswered(m);
      RepliedSnoc(m.replies, AnsweredJobs(m), m.worker.last, m.worker.response);
    }
  }

  lemma {:induction false} CallsSortedStep(m: Machine, a: Action)
    requires Enabled(m, a) && CallsSorted(m)
    ensures CallsSorted(Perform(m, a))
  {
    hide Step, Logged;
    if a.Push? && !m.queueClosed {
      var job := Job(a.id, m.inFlight[a.id]);
      LoggedSnoc(m.log, job);
      forall i | 0 <= i < |m.log|
        ensures m.log[i].id != a.id
      {
        LoggedAt(m.log, i);
      }
    }
  }

  lemma LifecycleStep(m: Machine, a: Action)
    requires Enabled(m, a) && Lifecycle(m)
    ensures Lifecycle(Perform(m, a))
  {
    hide Step;
  }

  lemma RunnerStepKeeps(m: Machine, a: Action)
    requires Enabled(m, a) && RunnerInv(m)
    ensures RunnerInv(Perform(m, a))
  {
    hide Enabled, NothingLost, Sequential, Answers, Lifecycle, DistinctIds;
    NothingLostStep(m, a);
    SequentialStep(m, a);
    AnswersStep(m, a);
    CallsSortedStep(m, a);
    LifecycleStep(m, a);
  }

  lemma FreshKeeps(capacity: nat)
    ensures RunnerInv(Fresh(capacity))
  {
  }

  lemma {:induction false} BehaviourKeeps(m: Machine, actions: seq<Action>)
    requires Possible(m, actions) && RunnerInv(m)
    ensures RunnerInv(Final(m, actions))
    decreases |actions|
  {
    hide RunnerInv, Enabled, Perform;
    if actions != [] {
      RunnerStepKeeps(m, actions[0]);
      BehaviourKeeps(Perform(m, actions[0]), actions[1..]);
    }
  }

  // ---------- linearizability ----------

  /**
   Under every interleaving: the engine is the sequential fold of a prefix of the accepted
   commands in queue order; what is left of the log is in the worker's hand and in the
   queue; and the replies are exactly the sequential engine's responses to that prefix,
   the one just executed excepted until it is set.
   */
  lemma {:induction false} Linearizable(capacity: nat, actions: seq<Action>)
    requires Possible(Fresh(capacity), actions)
    ensures var m := Final(Fresh(capacity), actions);
            && NothingLost(m) && Sequential(m) && Answers(m) && CallsSorted(m)
            && Inv(m.engine)
  {
    FreshKeeps(capacity);
    BehaviourKeeps(Fresh(capacity), actions);
    EveryRunKeeps(Commands(Final(Fresh(capacity), actions).executed));
  }

  /** Later only adds: the log grows at its end, replies are never changed or withdrawn, calls are not forgotten. */
  ghost predicate Extends(m: Machine, m': Machine) {
    && m.log <= m'.log && m.executed <= m'.executed
    && m.calls <= m'.calls && m.refused <= m'.refused
    && (forall id :: id in m.replies ==> id in m'.replies && m'.replies[id] == m.replies[id])
  }

  lemma {:induction false} StepExtends(m: Machine, a: Action)
    requires Enabled(m, a) && RunnerInv(m)
    ensures Extends(m, Perform(m, a))
  {
    hide Step, RunState, Commands, Lifecycle, Due, Logged, DistinctIds;
    if a.Answer? {
      LastUnanswered(m);
    }
  }

  lemma {:induction false} BehaviourExtends(m: Machine, actions: seq<Action>)
    requires Possible(m, actions) && RunnerInv(m)
    ensures Extends(m, Final(m, actions))
    decreases |actions|
  {
    hide RunnerInv, Enabled, Perform;
    if actions != [] {
      StepExtends(m, actions[0]);
      RunnerStepKeeps(m, actions[0]);
      BehaviourExtends(Perform(m, actions[0]), actions[1..]);
    }
  }

  /** Real-time order: a command pushed before another call began is executed before that other command. */
  lemma {:induction false} RealTimeOrder(m: Machine, actions: seq<Action>, x: nat, y: nat, i: nat, j: nat)
    requires Possible(m, actions) && RunnerInv(m)
    requires Logged(m.log, x) && y !in m.calls
    requires var log := Final(m, actions).log; i < |log| && j < |log| && log[i].id == x && log[j].id == y
    ensures i < j
  {
    hide Enabled, Perform, NothingLost, Sequential, Answers, Lifecycle;
    BehaviourExtends(m, actions);
    BehaviourKeeps(m, actions);
    var log := Final(m, actions).log;
    var at :| 0 <= at < |m.log| && m.log[at].id == x;
    assert forall k :: 0 <= k < |m.log| ==> log[k] == m.log[k] && log[k].id in m.calls;
    assert i == at;
  }

  // ---------- stop ----------

  /** Once stop has returned, every accepted command has its reply, and the engine has executed exactly those. */
  lemma {:induction false} NoneUnanswered(capacity: nat, actions: seq<Action>)
    requires Possible(Fresh(capacity), actions)
    requires var m := Final(Fresh(capacity), actions); m.closed && m.control == Ready
    ensures var m := Final(Fresh(capacity), actions);
            && m.executed == m.log && m.engine == RunState(INITIAL, Commands(m.log))
            && (forall id :: id in m.replies <==> Logged(m.log, id))
            && (forall i :: 0 <= i < |m.log| ==>
                  m.replies[m.log[i].id] == Step(RunState(INITIAL, Commands(m.log[..i])), m.log[i].command).response)
  {
    hide Step, RunState, Commands, CallsSorted;
    FreshKeeps(capacity);
    BehaviourKeeps(Fresh(capacity), actions);
    var m := Final(Fresh(capacity), actions);
    assert m.worker == Exited && m.log == m.executed;
    assert forall i :: 0 <= i < |m.log| ==> m.replies[m.log[i].id] == Due(m.log, i);
  }

  /** Nothing changes after stop: it cannot be restarted, and every later or straggling call throws. */
  lemma {:induction false} StoppedForGood(m: Machine, actions: seq<Action>)
    requires Possible(m, actions) && RunnerInv(m) && m.closed && m.control == Ready
    ensures var n := Final(m, actions);
            && n.control == Ready && n.closed && !n.accepting
            && n.log == m.log && n.engine == m.engine && n.replies == m.replies
            && (forall id :: id in n.calls && id !in m.calls ==> id in n.refused)
    decreases |actions|
  {
    hide RunnerInv, Enabled, Perform;
    StoppedRefuses(m);
    if actions != [] {
      var m' := Perform(m, actions[0]);
      RunnerStepKeeps(m, actions[0]);
      StoppedStep(m, actions[0]);
      BehaviourExtends(m', actions[1..]);
      StoppedForGood(m', actions[1..]);
    }
  }

  lemma StoppedRefuses(m: Machine)
    requires RunnerInv(m) && m.closed && m.control == Ready
    ensures !m.accepting
  {
  }

  lemma {:induction false} StoppedStep(m: Machine, a: Action)
    requires Enabled(m, a) && RunnerInv(m) && m.closed && m.control == Ready
    ensures var m' := Perform(m, a);
            && m'.control == Ready && m'.closed && !m.accepting && !m'.accepting
            && m'.log == m.log && m'.engine == m.engine && m'.replies == m.replies
            && (forall id :: id in m'.calls && id !in m.calls ==> id in m'.refused)
  {
    hide Step, NothingLost, Sequential, Answers, CallsSorted;
  }

  /** How many steps the worker still has to take once the queue is closed: three a job, and its exit. */
  function Remaining(m: Machine): nat {
    3 * |m.queue| +
    match m.worker
    case Unborn => 1
    case Waiting => 1
    case Holding(_) => 3
    case Executed(_, _) => 2
    case Exited => 0
  }

  predicate ByWorker(a: Action) {
    a.Pop? || a.Execute? || a.Answer? || a.Exit?
  }

  function NextOfWorker(m: Machine): Action {
    match m.worker
    case Holding(_) => Execute
    case Executed(_, _) => Answer
    case _ => if m.queue != [] then Pop else Exit
  }

  function WorkerSteps(actions: seq<Action>): nat {
    if actions == [] then 0 else (if ByWorker(actions[0]) then 1 else 0) + WorkerSteps(actions[1..])
  }

  /** While stop joins, the worker is never blocked, and exactly its own steps bring the end nearer, by one each. */
  lemma {:induction false} JoiningStep(m: Machine, a: Action)
    requires RunnerInv(m) && m.control == Joining
    ensures Remaining(m) == 0 <==> Enabled(m, Join)
    ensures Remaining(m) > 0 ==> ByWorker(NextOfWorker(m)) && Enabled(m, NextOfWorker(m))
    ensures Enabled(m, a) && a != Join ==>
              && Perform(m, a).control == Joining
              && Remaining(m) == Remaining(Perform(m, a)) + (if ByWorker(a) then 1 else 0)
  {
    hide Step, NothingLost, Sequential, Answers, CallsSorted;
  }

  /**
   In any behaviour of a runner that is joining, whatever producers do meanwhile: stop can
   return exactly when the worker has taken the steps that remained, and until then the
   worker can take another.
   */
  lemma {:induction false} StopReturns(m: Machine, actions: seq<Action>)
    requires RunnerInv(m) && m.control == Joining && Possible(m, actions) && Join !in actions
    ensures var n := Final(m, actions);
            && n.control == Joining && WorkerSteps(actions) + Remaining(n) == Remaining(m)
            && (Enabled(n, Join) <==> WorkerSteps(actions) == Remaining(m))
            && (WorkerSteps(actions) < Remaining(m) ==> Enabled(n, NextOfWorker(n)) && ByWorker(NextOfWorker(n)))
    decreases |actions|
  {
    hide RunnerInv, Enabled, Perform, Remaining, NextOfWorker;
    if actions == [] {
      JoiningStep(m, Join);
    } else {
      assert actions[0] != Join && Join !in actions[1..];
      JoiningStep(m, actions[0]);
      RunnerStepKeeps(m, actions[0]);
      StopReturns(Perform(m, actions[0]), actions[1..]);
    }
  }

  // ---------- calls ----------

  /** What the history of start and stop says, whatever else has happened. */
  datatype Phase = NeverStarted | Running | Stopped

  function NextPhase(p: Phase, a: Action): Phase {
    if p == NeverStarted && a == StartExchange then Running
    else if p == Running && a == StopExchange then Stopped
    else p
  }

  function PhaseAfter(p: Phase, actions: seq<Action>): Phase
    decreases |actions|
  {
    if actions == [] then p else PhaseAfter(NextPhase(p, actions[0]), actions[1..])
  }

  ghost predicate InPhase(m: Machine, p: Phase) {
    match p
    case NeverStarted => !m.accepting && !m.closed && !m.queueClosed && (m.control == Ready || m.control == Starting)
    case Running => m.accepting && !m.closed && !m.queueClosed
    case Stopped =>
      && !m.accepting && m.control != Starting && m.control != Launching
      && (m.closed || m.control == Stopping)
  }

  lemma {:induction false} StaysInPhase(m: Machine, p: Phase, actions: seq<Action>)
    requires Possible(m, actions) && RunnerInv(m) && InPhase(m, p)
    ensures InPhase(Final(m, actions), PhaseAfter(p, actions))
    decreases |actions|
  {
    hide RunnerInv, Enabled, Perform, InPhase;
    if actions != [] {
      PhaseStep(m, p, actions[0]);
      RunnerStepKeeps(m, actions[0]);
      StaysInPhase(Perform(m, actions[0]), NextPhase(p, actions[0]), actions[1..]);
    }
  }

  lemma {:induction false} PhaseStep(m: Machine, p: Phase, a: Action)
    requires Enabled(m, a) && RunnerInv(m) && InPhase(m, p)
    ensures InPhase(Perform(m, a), NextPhase(p, a))
  {
    hide Step, NothingLost, Sequential, Answers, CallsSorted;
  }

  /**
   In any behaviour: a call throws exactly when the runner was never started or its stop
   has begun, and otherwise goes on to its push; and only after a stop is the queue closed.
   */
  lemma {:induction false} CallsAnswered(capacity: nat, actions: seq<Action>, id: nat, command: Command)
    requires Possible(Fresh(capacity), actions) && id !in Final(Fresh(capacity), actions).calls
    ensures var m := Final(Fresh(capacity), actions);
            && Enabled(m, Call(id, command))
            && var m' := Perform(m, Call(id, command));
            && (id in m'.refused <==> PhaseAfter(NeverStarted, actions) != Running)
            && (id in m'.inFlight <==> PhaseAfter(NeverStarted, actions) == Running)
            && (id in m'.inFlight ==> m'.inFlight[id] == command)
            && (m.queueClosed ==> PhaseAfter(NeverStarted, actions) == Stopped)
  {
    hide NothingLost, Sequential, Answers, Lifecycle, DistinctIds, Logged;
    FreshKeeps(capacity);
    BehaviourKeeps(Fresh(capacity), actions);
    StaysInPhase(Fresh(capacity), NeverStarted, actions);
  }

  /** The call is on its way with its command, was accepted with it, or threw. */
  ghost predicate Kept(m: Machine, id: nat, command: Command) {
    (id in m.inFlight && m.inFlight[id] == command) || Job(id, command) in m.log || id in m.refused
  }

  /** A call's command is never altered or lost: it stays on its way until it is accepted or thrown back. */
  lemma {:induction false} CommandsKept(m: Machine, actions: seq<Action>, id: nat, command: Command)
    requires Possible(m, actions) && RunnerInv(m) && Kept(m, id, command)
    ensures Kept(Final(m, actions), id, command)
    decreases |actions|
  {
    hide RunnerInv, Enabled, Perform, Kept;
    if actions != [] {
      CommandStep(m, actions[0], id, command);
      RunnerStepKeeps(m, actions[0]);
      CommandsKept(Perform(m, actions[0]), actions[1..], id, command);
    }
  }

  lemma {:induction false} CommandStep(m: Machine, a: Action, id: nat, command: Command)
    requires Enabled(m, a) && RunnerInv(m) && Kept(m, id, command)
    ensures Kept(Perform(m, a), id, command)
  {
    hide Step, NothingLost, Sequential, Answers, Lifecycle, DistinctIds, Logged;
    if a.Push? && !m.queueClosed {
      var job := Job(a.id, m.inFlight[a.id]);
      assert (m.log + [job])[|m.log|] == job;
    }
  }

  /** A launched worker waits only for an empty open queue, and a push only for room in an open queue. */
  lemma {:induction false} BlockedOnlyByQueue(m: Machine, id: nat)
    requires RunnerInv(m)
    ensures m.worker != Unborn && m.worker != Exited ==>
              (Enabled(m, NextOfWorker(m)) <==> m.worker != Waiting || m.queue != [] || m.queueClosed)
    ensures id in m.inFlight ==> (!Enabled(m, Push(id)) <==> !m.queueClosed && |m.queue| == m.capacity)
  {
    hide Step, Sequential, Answers, CallsSorted, Lifecycle;
  }
}
