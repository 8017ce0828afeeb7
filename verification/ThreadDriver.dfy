/** The threads on the real data: control blocks, the two slot arrays, the bank. Every run from main's
    thread_create calls on is a run of the machine in Threads, so that what holds of its runs holds of
    the arrays, and no index ever leaves them.
    Models the running of UserLevelThreadLibrary/threads.c under scheduler.c. */
module ThreadDriver {
  import opened Scheduler
  import opened Threads
  import opened ThreadInvariant
  import opened ThreadRuns

  ghost function Owners(blocks: map<int, Tcb>): set<Tcb> { set id | id in blocks :: blocks[id] }

  /** A thread's function, where its saved environment resumes it, and what it has printed. */
  datatype Saved = Saved(body: Body, pc: nat, printed: seq<Line>)

  function ThreadOf(s: Saved, vars: Vars): Thread { Thread(s.body, s.pc, vars, s.printed) }

  /** The running thread yields, and no signal is pending. */
  predicate Quiescent(m: Machine, signal: bool) {
    Runnable(m) && Fetch(m.threads[m.q.ready[m.q.cur]]).CallYield? && !signal
  }

  class Process {
    const table: ThreadTable
    const bank: Bank
    var saved: map<int, Saved>           // what else belongs to each thread
    ghost var threads: map<int, Thread>  // all of it, thread by thread
    ghost var requests: seq<int>
    ghost var grants: seq<int>
    ghost var updates: seq<int>

    ghost predicate Valid()
      reads this, table, table.ready_queue, table.waiting_queue, Owners(table.blocks)
    {
      && table.Valid() && SameIds()
      && forall id :: id in threads ==> threads[id] == ThreadOf(saved[id], VarsOf(table.blocks[id]))
    }

    ghost predicate SameIds()
      reads this, table
    {
      forall id :: (id in saved <==> id in table.blocks) && (id in threads <==> id in table.blocks)
    }

    ghost function Value(): Machine
      requires table.Valid()
      reads this, table, table.ready_queue, table.waiting_queue, bank
    {
      Machine(table.Value(), threads, bank.balance, requests, grants, updates)
    }

    constructor ()
      ensures Valid() && Value() == Init([], map[]) && table.blocks == map[]
      ensures fresh(table) && fresh(table.ready_queue) && fresh(table.waiting_queue) && fresh(bank)
    {
      table := new ThreadTable();
      bank := new Bank();
      saved, threads := map[], map[];
      requests, grants, updates := [], [], [];
    }

    /** `thread_create` */
    method Create(id: int, body: Body, arg: int)
      requires Valid() && table.rq_size < THREAD_MAX && id !in table.blocks
      modifies this`saved, this`threads, table`rq_size, table`blocks, table.ready_queue
      ensures Valid() && id in table.blocks && fresh(table.blocks[id])
      ensures table.blocks == old(table.blocks)[id := table.blocks[id]]
      ensures table.Value() == old(table.Value()).(ready := old(table.Value()).ready + [id])
      ensures threads == old(threads)[id := NewThread(body, arg)]
    {
      var tcb := table.Setup(id, arg);
      saved := saved[id := Saved(body, 0, [])];
      threads := threads[id := NewThread(body, arg)];
    }

    /** An entry of the scheduler from the running thread. */
    method Enter(see: Entry)
      requires Valid() && table.rq_current < table.rq_size && table.rq_size + table.wq_size <= THREAD_MAX
      modifies this`grants, table`rq_size, table`wq_size, table`rq_current, table`lock_owner
      modifies table.ready_queue, table.waiting_queue
      ensures Valid() && Value() == Reschedule(old(Value()), see)
    {
      grants := grants + Granted(table.Value(), see);
      var running := table.Schedule(see);
    }

    /** All but one thread's control block agree with `threads`. */
    ghost predicate ValidBut(me: int)
      reads this, table, table.ready_queue, table.waiting_queue, Owners(table.blocks)
    {
      && table.Valid() && SameIds()
      && forall id :: id in threads && id != me ==> threads[id] == ThreadOf(saved[id], VarsOf(table.blocks[id]))
    }

    /** The thread has printed `lines` and will go on at `pc`. */
    method Save(id: int, pc: nat, lines: seq<Line>)
      requires ValidBut(id) && id in threads
      modifies this`saved, this`threads
      ensures Valid()
      ensures threads == old(threads)[id :=
        Thread(old(saved)[id].body, pc, VarsOf(table.blocks[id]), old(saved)[id].printed + lines)]
    {
      saved := saved[id := Saved(saved[id].body, pc, saved[id].printed + lines)];
      threads := threads[id := ThreadOf(saved[id], VarsOf(table.blocks[id]))];
    }

    ghost predicate Loaded(running: Tcb)
      reads this, table, table.ready_queue, table.waiting_queue, Owners(table.blocks)
    {
      Valid() && running.id in threads && table.blocks[running.id] == running && !Exited(threads[running.id])
    }

    /** The running thread, and that every slot index is in range. */
    method Running() returns (running: Tcb)
      requires Valid() && RunInv(Value()) && !Finished(Value())
      ensures running == table.ready_queue[table.rq_current]
      ensures Runnable(Value()) && running.id == Value().q.ready[Value().q.cur]
      ensures Loaded(running)
      ensures table.rq_current < table.rq_size && table.rq_size + table.wq_size <= THREAD_MAX
    {
      NeverEmptySlot(Value());
      running := table.ready_queue[table.rq_current];
    }

    /** The next instruction of a Fibonacci thread, but for what the scheduler does about it. */
    method ExecuteFibonacci(running: Tcb) returns (instr: Instr)
      requires Loaded(running) && saved[running.id].body.Fibonacci?
      modifies this`saved, this`threads, running`i, running`x, running`y
      ensures Valid() && instr == Fetch(old(threads)[running.id])
      ensures threads == old(threads)[running.id := Next(old(threads)[running.id], bank.balance)]
    {
      if saved[running.id].pc == 0 {
        var line := FibonacciIteration(running);
        Save(running.id, 1, [Number(line)]);
        return Compute;
      } else if running.i == running.arg {
        Save(running.id, 2, []);
        return CallExit;
      } else {
        running.i := running.i + 1;
        Save(running.id, 0, []);
        return CallYield;
      }
    }

    method ExecuteFactorial(running: Tcb) returns (instr: Instr)
      requires Loaded(running) && saved[running.id].body.Factorial?
      modifies this`saved, this`threads, running`i2, running`z
      ensures Valid() && instr == Fetch(old(threads)[running.id])
      ensures threads == old(threads)[running.id := Next(old(threads)[running.id], bank.balance)]
    {
      if saved[running.id].pc == 0 {
        var line := FactorialIteration(running);
        Save(running.id, 1, [Number(line)]);
        return Compute;
      } else if running.i2 == running.arg {
        Save(running.id, 2, []);
        return CallExit;
      } else {
        running.i2 := running.i2 + 1;
        Save(running.id, 0, []);
        return CallYield;
      }
    }

    method ExecuteBank(running: Tcb) returns (instr: Instr)
      requires Loaded(running) && saved[running.id].body.BankOperation?
      modifies this`saved, this`threads, this`updates, bank
      ensures Valid() && instr == Fetch(old(threads)[running.id])
      ensures threads == old(threads)[running.id := Next(old(threads)[running.id], old(bank.balance))]
      ensures var t := old(threads)[running.id];
        && bank.balance == (if Updates(t) then Transact(old(bank.balance), t.vars.arg) else old(bank.balance))
        && updates == if Updates(t) then old(updates) + [running.id] else old(updates)
    {
      var pc := saved[running.id].pc;
      if pc == 3 {
        var before, after := BankUpdate(bank, running);
        updates := updates + [running.id];
        Save(running.id, 4, [Amounts(before, after)]);
        return Compute;
      } else {
        Save(running.id, pc + 1, if pc == 1 then [Acquired] else if pc == 6 then [Released] else []);
        return if pc == 0 then CallLock
               else if pc == 2 || pc == 4 then CallYield
               else if pc == 5 then CallUnlock
               else if pc == 7 then CallExit
               else Compute;
      }
    }

    method ExecuteScript(running: Tcb) returns (instr: Instr)
      requires Loaded(running) && saved[running.id].body.Script?
      modifies this`saved, this`threads
      ensures Valid() && instr == Fetch(old(threads)[running.id])
      ensures threads == old(threads)[running.id := Next(old(threads)[running.id], bank.balance)]
    {
      var pc := saved[running.id].pc;
      Save(running.id, pc + 1, []);
      return saved[running.id].body.code[pc];
    }

    method Execute(running: Tcb) returns (instr: Instr)
      requires Loaded(running) && Runnable(Value()) && running.id == Value().q.ready[Value().q.cur]
      modifies this`saved, this`threads, this`updates, bank, running
      ensures Valid() && instr == Fetch(old(threads)[running.id]) && Value() == Executed(old(Value()))
    {
      match saved[running.id].body
      case Fibonacci => instr := ExecuteFibonacci(running);
      case Factorial => instr := ExecuteFactorial(running);
      case BankOperation => instr := ExecuteBank(running);
      case Script(_) => instr := ExecuteScript(running);
    }

    /** What the scheduler does about it. */
    method React(id: int, instr: Instr, signal: bool)
      requires Valid() && table.rq_current < table.rq_size && table.rq_size + table.wq_size <= THREAD_MAX
      requires id == Value().q.ready[Value().q.cur]
      modifies this`requests, this`grants, table`rq_size, table`wq_size, table`rq_current, table`lock_owner
      modifies table.ready_queue, table.waiting_queue
      ensures Valid() && Value() == Reacted(old(Value()), id, instr, signal)
    {
      match instr
      case Compute =>
      case CallYield =>
        if signal {
          Enter(Yield);
        }
      case CallLock =>
        requests := requests + [id];
        Enter(Lock);
      case CallUnlock => table.Unlock();
      case CallExit => Enter(Exit);
    }

    /** One instruction of the running thread; nothing once control is back in main. */
    method Step(signal: bool)
      requires Valid() && RunInv(Value())
      modifies this`saved, this`threads, this`requests, this`grants, this`updates, bank
      modifies table`rq_size, table`wq_size, table`rq_current, table`lock_owner
      modifies table.ready_queue, table.waiting_queue, Owners(table.blocks)
      ensures Valid() && RunInv(Value()) && Value() == Threads.Step(old(Value()), signal)
      ensures Quiescent(old(Value()), signal) ==> Value().q == old(Value()).q
    {
      StepKeepsRunInv(Value(), signal);
      if table.rq_size == 0 {
        return;
      }
      var running := Running();
      var instr := Execute(running);
      React(running.id, instr, signal);
    }

    /** Any number of instructions, with signals pending at the yields as `signals` tells. */
    method Run(signals: seq<bool>)
      requires Valid() && RunInv(Value())
      modifies this`saved, this`threads, this`requests, this`grants, this`updates, bank
      modifies table`rq_size, table`wq_size, table`rq_current, table`lock_owner
      modifies table.ready_queue, table.waiting_queue, Owners(table.blocks)
      ensures Valid() && Value() == Threads.Run(old(Value()), signals)
    {
      var i := 0;
      while i < |signals|
        invariant 0 <= i <= |signals| && Valid() && RunInv(Value())
        invariant Threads.Run(Value(), signals[i..]) == Threads.Run(old(Value()), signals)
      {
        assert signals[i..][1..] == signals[i + 1..];
        Step(signals[i]);
        i := i + 1;
      }
    }
  }

  // ----- main -----------------------------------------------------------------------------

  function Created(ids: seq<int>, bodies: map<int, Body>, args: map<int, int>): map<int, Thread>
    requires forall id :: id in ids ==> id in bodies && id in args
  {
    map id | id in ids :: NewThread(bodies[id], args[id])
  }

  /** Threads that main can create. */
  ghost predicate Creatable(ids: seq<int>, bodies: map<int, Body>, args: map<int, int>) {
    && NoDup(ids) && |ids| <= THREAD_MAX && FREE !in ids
    && forall id :: id in ids ==> id in bodies && id in args && Ok(NewThread(bodies[id], args[id]))
  }

  lemma CreatedNext(ids: seq<int>, k: nat, bodies: map<int, Body>, args: map<int, int>)
    requires Creatable(ids, bodies, args) && k < |ids|
    ensures ids[k] !in ids[..k] && ids[..k + 1] == ids[..k] + [ids[k]]
    ensures Created(ids[..k + 1], bodies, args)
         == Created(ids[..k], bodies, args)[ids[k] := NewThread(bodies[ids[k]], args[ids[k]])]
  {
  }

  /** `init_bank` and `init_threads` */
  method InitThreads(ids: seq<int>, bodies: map<int, Body>, args: map<int, int>) returns (p: Process)
    requires Creatable(ids, bodies, args)
    ensures fresh(p) && fresh(p.table) && fresh(p.table.ready_queue) && fresh(p.table.waiting_queue) && fresh(p.bank)
    ensures p.Valid() && forall id :: id in p.table.blocks ==> fresh(p.table.blocks[id])
    ensures p.Value() == Init(ids, Created(ids, bodies, args))
  {
    p := new Process();
    var k := 0;
    assert ids[..0] == [];
    while k < |ids|
      invariant 0 <= k <= |ids|
      invariant fresh(p) && fresh(p.bank) && fresh(p.table)
      invariant fresh(p.table.ready_queue) && fresh(p.table.waiting_queue)
      invariant p.Valid() && forall id :: id in p.table.blocks ==> fresh(p.table.blocks[id]) && id in ids[..k]
      invariant p.table.Value() == Queues(ids[..k], [], 0, FREE) && p.threads == Created(ids[..k], bodies, args)
      invariant p.bank.balance == OPENING_BALANCE && p.requests == p.grants == p.updates == []
    {
      CreatedNext(ids, k, bodies, args);
      p.Create(ids[k], bodies[ids[k]], args[ids[k]]);
      k := k + 1;
    }
    assert ids[..k] == ids;
  }

  /** The whole program, whatever signals arrive: a run of the machine from its initial state. */
  method RunThreads(ids: seq<int>, bodies: map<int, Body>, args: map<int, int>, signals: seq<bool>) returns (p: Process)
    requires Creatable(ids, bodies, args)
    ensures ValidStart(ids, Created(ids, bodies, args))
    ensures p.Valid() && p.Value() == Run(Init(ids, Created(ids, bodies, args)), signals)
  {
    p := InitThreads(ids, bodies, args);
    InitRunInv(ids, Created(ids, bodies, args));
    var running := p.table.Start();
    p.Run(signals);
  }
}
