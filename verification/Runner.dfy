/** The runner's own code, one method for each stretch between two accesses to shared state. */
module Runners {
  import opened Domain
  import opened MatchingSpec
  import opened Engines
  import opened RunnerProtocol

  class Runner {
    const capacity: nat
    const engine: Engine
    var accepting: bool
    var closed: bool
    var commands: seq<Job>
    var commandsClosed: bool
    /** Where the two threads are, and the promises in circulation. */
    var worker: Worker
    var control: Control
    var calls: set<nat>
    var inFlight: map<nat, Command>
    var refused: set<nat>
    var replies: map<nat, Response>
    ghost var log: seq<Job>
    ghost var executed: seq<Job>

    constructor (capacity: nat)
      ensures Valid() && Value() == Fresh(capacity) && fresh(engine) && fresh(engine.Repr)
    {
      this.capacity := capacity;
      engine := new Engine();
      accepting, closed, commands, commandsClosed := false, false, [], false;
      worker, control, calls, inFlight, refused, replies := Unborn, Ready, {}, map[], {}, map[];
      log, executed := [], [];
      new;
      FreshKeeps(capacity);
    }

    ghost predicate Valid()
      reads this, engine, engine.Repr
    {
      this !in engine.Repr && engine.Valid() && RunnerInv(Value())
    }

    ghost function Value(): Machine
      reads this, engine
    {
      Machine(accepting, closed, capacity, commands, commandsClosed, worker, control, engine.model,
              calls, inFlight, refused, replies, log, executed)
    }

    // ---------- start ----------

    /** The first half of `start`; false is the exception "runner cannot be restarted after stop". */
    method CheckNotClosed() returns (ok: bool)
      requires Valid() && Enabled(Value(), StartCheck)
      modifies this
      ensures Valid() && Value() == Perform(old(Value()), StartCheck)
      ensures ok <==> !old(closed)
    {
      hide RunnerInv;
      RunnerStepKeeps(Value(), StartCheck);
      if closed {
        return false;
      }
      control := Starting;
      return true;
    }

    /** compare_exchange_strong; false is the exception "runner is already running". */
    method ExchangeAccepting() returns (ok: bool)
      requires Valid() && Enabled(Value(), StartExchange)
      modifies this
      ensures Valid() && Value() == Perform(old(Value()), StartExchange)
      ensures ok <==> !old(accepting)
    {
      hide RunnerInv;
      RunnerStepKeeps(Value(), StartExchange);
      var expected := false;
      if accepting == expected {
        accepting, control := true, Launching;
        return true;
      }
      control := Ready;
      return false;
    }

    method LaunchWorker()
      requires Valid() && Enabled(Value(), Launch)
      modifies this
      ensures Valid() && Value() == Perform(old(Value()), Launch)
    {
      hide RunnerInv;
      RunnerStepKeeps(Value(), Launch);
      worker, control := Waiting, Ready;
    }

    // ---------- stop ----------

    /** `accepting.exchange(false)`; false means that there is nothing to stop. */
    method StopAccepting() returns (wasAccepting: bool)
      requires Valid() && Enabled(Value(), StopExchange)
      modifies this
      ensures Valid() && Value() == Perform(old(Value()), StopExchange)
      ensures wasAccepting == old(accepting)
    {
      hide RunnerInv;
      RunnerStepKeeps(Value(), StopExchange);
      wasAccepting := accepting;
      accepting := false;
      if !wasAccepting {
        return;
      }
      control := Stopping;
    }

    method SetClosed()
      requires Valid() && Enabled(Value(), MarkClosed)
      modifies this
      ensures Valid() && Value() == Perform(old(Value()), MarkClosed)
    {
      hide RunnerInv;
      RunnerStepKeeps(Value(), MarkClosed);
      closed, control := true, Closing;
    }

    method CloseCommands()
      requires Valid() && Enabled(Value(), CloseQueue)
      modifies this
      ensures Valid() && Value() == Perform(old(Value()), CloseQueue)
    {
      hide RunnerInv;
      RunnerStepKeeps(Value(), CloseQueue);
      commandsClosed, control := true, Joining;
    }

    method JoinWorker()
      requires Valid() && Enabled(Value(), Join)
      modifies this
      ensures Valid() && Value() == Perform(old(Value()), Join)
    {
      hide RunnerInv;
      RunnerStepKeeps(Value(), Join);
      control := Ready;
    }

    // ---------- producers ----------

    /** The `accepting` check of `enqueue`; false is the exception "runner is not running". */
    method BeginEnqueue(id: nat, command: Command) returns (ok: bool)
      requires Valid() && Enabled(Value(), Call(id, command))
      modifies this
      ensures Valid() && Value() == Perform(old(Value()), Call(id, command))
      ensures ok == old(accepting)
    {
      hide RunnerInv;
      RunnerStepKeeps(Value(), Call(id, command));
      calls := calls + {id};
      if !accepting {
        refused := refused + {id};
        return false;
      }
      inFlight := inFlight[id := command];
      return true;
    }

    method FinishEnqueue(id: nat)
      requires Valid() && Enabled(Value(), Push(id))
      modifies this
      ensures Valid() && Value() == Perform(old(Value()), Push(id))
    {
      hide RunnerInv;
      RunnerStepKeeps(Value(), Push(id));
      if commandsClosed {
        refused := refused + {id};
      } else {
        var job := Job(id, inFlight[id]);
        commands := commands + [job];
        log := log + [job];
      }
      inFlight := inFlight - {id};
    }

    // ---------- the worker ----------

    /** `wait_and_pop` with something to pop, or with the queue closed and drained. */
    method WaitAndPop() returns (ok: bool)
      requires Valid() && (Enabled(Value(), Pop) || Enabled(Value(), Exit))
      modifies this
      ensures Valid() && ok == (old(commands) != [])
      ensures Enabled(old(Value()), if ok then Pop else Exit)
      ensures Value() == Perform(old(Value()), if ok then Pop else Exit)
    {
      hide RunnerInv;
      RunnerStepKeeps(Value(), if commands == [] then Exit else Pop);
      if commands == [] {
        worker := Exited;
        return false;
      }
      worker := Holding(commands[0]);
      commands := commands[1..];
      return true;
    }

    /** Visits the command: the engine operation that its alternative calls. */
    method Visit(command: Command) returns (response: Response)
      requires engine.Valid()
      modifies engine, engine.Repr
      ensures engine.Valid() && fresh(engine.Repr - old(engine.Repr))
      ensures Outcome(engine.model, response) == Step(old(engine.model), command)
    {
      hide SubmitStep, UpdateStep, CancelStep;
      match command {
        case Submit(order) =>
          var events := engine.Submit(order);
          response := Response.Events(events);
        case Update(order) =>
          var events := engine.Update(order);
          response := Response.Events(events);
        case Cancel(key) =>
          var events := engine.Cancel(key);
          response := Response.Events(events);
        case Snapshot(instrument, depth) =>
          var snapshot := engine.Snapshot(instrument, depth);
          response := SnapshotReply(snapshot);
      }
    }

    /** Runs the command in hand on the engine. */
    method Process()
      requires Valid() && Enabled(Value(), Execute)
      modifies this, engine, engine.Repr
      ensures Valid() && fresh(engine.Repr - old(engine.Repr))
      ensures Value() == Perform(old(Value()), Execute)
    {
      hide RunnerInv, Step;
      RunnerStepKeeps(Value(), Execute);
      var job := worker.job;
      var response := Visit(job.command);
      worker := Executed(job, response);
      executed := executed + [job];
    }

    /** `set_value` on the promise of the command just executed. */
    method SetValue()
      requires Valid() && Enabled(Value(), Answer)
      modifies this
      ensures Valid() && Value() == Perform(old(Value()), Answer)
    {
      hide RunnerInv;
      RunnerStepKeeps(Value(), Answer);
      replies := replies[worker.last.id := worker.response];
      worker := Waiting;
    }
  }
}
