/** Threads running under the scheduler with a signal arriving, or not, at every yield.
    Models UserLevelThreadLibrary/threads.c and the macros of threadtools.h. A thread is a
    program counter and the variables of its control block. */
module Threads {
  import opened Scheduler

  // ----- thread programs ------------------------------------------------------------------

  datatype Instr = Compute | CallYield | CallLock | CallUnlock | CallExit

  /** The functions of threads.c, or any finite straight-line program. */
  datatype Body = Fibonacci | Factorial | BankOperation | Script(code: seq<Instr>)

  /** What the thread functions keep in the control block. */
  datatype Vars = Vars(arg: int, i: int, x: int, y: int, i2: int, z: int)

  /** What a thread prints after its id: a number; or, in the bank, that it has the lock, the balance
      before and after its transaction, and that it has released the lock. */
  datatype Line = Number(n: int) | Acquired | Amounts(before: int, after: int) | Released

  datatype Thread = Thread(body: Body, pc: nat, vars: Vars, printed: seq<Line>)

  function NewThread(body: Body, arg: int): Thread { Thread(body, 0, Vars(arg, 1, 1, 1, 1, 1), []) }

  /** Where a thread is once it has exited. */
  function End(body: Body): nat {
    match body
    case Fibonacci => 2
    case Factorial => 2
    case BankOperation => 8
    case Script(code) => |code|
  }

  predicate Exited(t: Thread) { t.pc >= End(t.body) }

  /** The next instruction. The two loops test the loop variable in the control block. */
  function Fetch(t: Thread): Instr
    requires !Exited(t)
  {
    match t.body
    case Fibonacci =>
      if t.pc == 0 then Compute else if t.vars.i == t.vars.arg then CallExit else CallYield
    case Factorial =>
      if t.pc == 0 then Compute else if t.vars.i2 == t.vars.arg then CallExit else CallYield
    case BankOperation =>
      if t.pc == 0 then CallLock
      else if t.pc == 2 || t.pc == 4 then CallYield
      else if t.pc == 5 then CallUnlock
      else if t.pc == 7 then CallExit
      else Compute
    case Script(code) => code[t.pc]
  }

  /** One iteration of `fibonacci`. */
  function FibCompute(v: Vars): Vars {
    if v.i <= 2 then v.(x := 1, y := 1) else v.(x := v.y, y := v.x + v.y)
  }

  /** One iteration of `factorial`. */
  function FactCompute(v: Vars): Vars { v.(z := v.z * v.i2) }

  /** Step 2 of `bank_operation`: deposit, or withdraw what is covered. */
  function Transact(balance: int, arg: int): int {
    if arg > 0 then balance + arg else if balance >= -arg then balance + arg else balance
  }

  predicate Updates(t: Thread) { t.body.BankOperation? && t.pc == 3 }

  /** The thread after its next instruction, but for what it prints. A yield in a loop is followed by
      the increment of the loop variable. */
  function Moved(t: Thread): Thread
    requires !Exited(t)
  {
    match t.body
    case Fibonacci =>
      if t.pc == 0 then t.(pc := 1, vars := FibCompute(t.vars))
      else if t.vars.i == t.vars.arg then t.(pc := 2)
      else t.(pc := 0, vars := t.vars.(i := t.vars.i + 1))
    case Factorial =>
      if t.pc == 0 then t.(pc := 1, vars := FactCompute(t.vars))
      else if t.vars.i2 == t.vars.arg then t.(pc := 2)
      else t.(pc := 0, vars := t.vars.(i2 := t.vars.i2 + 1))
    case BankOperation => t.(pc := t.pc + 1)
    case Script(_) => t.(pc := t.pc + 1)
  }

  /** What the next instruction prints. */
  function Says(t: Thread, balance: int): seq<Line> {
    match t.body
    case Fibonacci => if t.pc == 0 then [Number(FibCompute(t.vars).y)] else []
    case Factorial => if t.pc == 0 then [Number(FactCompute(t.vars).z)] else []
    case BankOperation =>
      if t.pc == 1 then [Acquired]
      else if t.pc == 3 then [Amounts(balance, Transact(balance, t.vars.arg))]
      else if t.pc == 6 then [Released]
      else []
    case Script(_) => []
  }

  function Next(t: Thread, balance: int): Thread
    requires !Exited(t)
  {
    Moved(t).(printed := t.printed + Says(t, balance))
  }

  // ----- the numbers the loops compute ----------------------------------------------------

  function Fib(n: nat): nat { if n <= 2 then (if n == 0 then 0 else 1) else Fib(n - 1) + Fib(n - 2) }

  function Fact(n: nat): nat { if n == 0 then 1 else n * Fact(n - 1) }

  /** The control block after `k` iterations. */
  ghost predicate FibSoFar(v: Vars, k: nat) { (k >= 1 ==> v.y == Fib(k)) && (k >= 2 ==> v.x == Fib(k - 1)) }

  ghost predicate FactSoFar(v: Vars, k: nat) { v.z == Fact(k) }

  // ----- the same on a control block and the bank -----------------------------------------

  const OPENING_BALANCE := 500

  class Bank {
    var balance: int

    /** `init_bank` */
    constructor ()
      ensures balance == OPENING_BALANCE
    {
      balance := OPENING_BALANCE;
    }
  }

  ghost function VarsOf(t: Tcb): Vars
    reads t
  {
    Vars(t.arg, t.i, t.x, t.y, t.i2, t.z)
  }

  /** Iteration `i` of `fibonacci` prints Fib(i) and leaves what iteration `i + 1` needs. */
  method FibonacciIteration(running: Tcb) returns (line: int)
    modifies running`x, running`y
    ensures VarsOf(running) == FibCompute(old(VarsOf(running))) && line == running.y
    ensures running.i >= 1 && FibSoFar(old(VarsOf(running)), running.i - 1) ==>
      line == Fib(running.i) && FibSoFar(VarsOf(running), running.i)
  {
    if running.i <= 2 {
      running.y := 1;
      running.x := 1;
    } else {
      var tmp := running.y;
      running.y := running.x + running.y;
      running.x := tmp;
    }
    line := running.y;
  }

  /** Iteration `i2` of `factorial` prints i2! and leaves what iteration `i2 + 1` needs. */
  method FactorialIteration(running: Tcb) returns (line: int)
    modifies running`z
    ensures VarsOf(running) == old(VarsOf(running)).(z := line)
    ensures running.i2 >= 1 && FactSoFar(old(VarsOf(running)), running.i2 - 1) ==>
      line == Fact(running.i2) && FactSoFar(VarsOf(running), running.i2)
    ensures line == FactCompute(old(VarsOf(running))).z
  {
    running.z := running.z * running.i2;
    line := running.z;
  }

  /** Deposit, or withdraw what is covered; the amounts printed are the balance before and after. */
  method BankUpdate(bank: Bank, running: Tcb) returns (before: int, after: int)
    modifies bank
    ensures before == old(bank.balance) && after == bank.balance == Transact(old(bank.balance), running.arg)
    ensures if running.arg > 0 || old(bank.balance) + running.arg >= 0
      then bank.balance == old(bank.balance) + running.arg
      else bank.balance == old(bank.balance)
  {
    var tmp := bank.balance;
    if running.arg > 0 {
      bank.balance := bank.balance + running.arg;
      return tmp, bank.balance;
    } else {
      var amount := if running.arg < 0 then -running.arg else running.arg;
      if bank.balance >= amount {
        bank.balance := bank.balance - amount;
        return tmp, bank.balance;
      } else {
        return tmp, tmp;
      }
    }
  }

  // ----- the machine ----------------------------------------------------------------------

  datatype Machine = Machine(
    q: Queues, threads: map<int, Thread>, balance: int,
    requests: seq<int>,   // threads in the order of their calls of lock()
    grants: seq<int>,     // threads in the order in which they were given the lock
    updates: seq<int>)    // threads in the order in which they updated the balance

  function Init(created: seq<int>, threads: map<int, Thread>): Machine {
    Machine(Queues(created, [], 0, FREE), threads, OPENING_BALANCE, [], [], [])
  }

  predicate Finished(m: Machine) { m.q.ready == [] }

  /** Whom an entry of the scheduler gives the lock. */
  function Granted(q: Queues, e: Entry): seq<int>
    requires q.cur < |q.ready|
  {
    if Wakes(q) then [q.waiting[0]]
    else if e == Lock && q.waiting == [] && q.owner == FREE then [q.ready[q.cur]]
    else []
  }

  predicate Runnable(m: Machine) {
    m.q.cur < |m.q.ready| && m.q.ready[m.q.cur] in m.threads && !Exited(m.threads[m.q.ready[m.q.cur]])
  }

  function Reschedule(m: Machine, e: Entry): Machine
    requires m.q.cur < |m.q.ready|
  {
    m.(q := Enter(m.q, e), grants := m.grants + Granted(m.q, e))
  }

  /** An instruction's effect on its thread, the balance and the books. */
  function Executed(m: Machine): Machine
    requires Runnable(m)
  {
    var id := m.q.ready[m.q.cur];
    var t := m.threads[id];
    m.(threads := m.threads[id := Next(t, m.balance)],
       balance := if Updates(t) then Transact(m.balance, t.vars.arg) else m.balance,
       updates := if Updates(t) then m.updates + [id] else m.updates)
  }

  /** Its effect on the queues and the lock. */
  function Reacted(m: Machine, id: int, instr: Instr, signal: bool): Machine
    requires m.q.cur < |m.q.ready|
  {
    match instr
    case Compute => m
    case CallYield => if signal then Reschedule(m, Yield) else m
    case CallLock => Reschedule(m.(requests := m.requests + [id]), Lock)
    case CallUnlock => if id == m.q.owner then m.(q := m.q.(owner := FREE)) else m
    case CallExit => Reschedule(m, Exit)
  }

  /** The running thread's next instruction; `signal` tells whether a yield finds one pending. */
  function Step(m: Machine, signal: bool): Machine {
    if !Runnable(m) then m
    else
      var id := m.q.ready[m.q.cur];
      Reacted(Executed(m), id, Fetch(m.threads[id]), signal)
  }

  function Run(m: Machine, signals: seq<bool>): Machine
    decreases |signals|
  {
    if signals == [] then m else Run(Step(m, signals[0]), signals[1..])
  }

  // ----- when the running thread changes --------------------------------------------------

  /** At a yield the signal decides: without one the thread goes on, with one the next one runs. */
  lemma SignalDecides(m: Machine)
    requires Runnable(m) && Fetch(m.threads[m.q.ready[m.q.cur]]).CallYield?
    ensures Step(m, false).q == m.q && Step(m, false).grants == m.grants
    ensures Dispatches(m.q, Yield, Step(m, true).q)
  {
    WhoRunsNext(m.q, Yield);
  }

  /** Without a signal only an exit, or a lock that is not free, changes the running thread; neither the
      queues nor the running slot change at all in any other step. */
  lemma OnlyCallsSwitch(m: Machine)
    requires Runnable(m)
    ensures var q, q', instr := m.q, Step(m, false).q, Fetch(m.threads[m.q.ready[m.q.cur]]);
      if instr.CallExit? then Dispatches(q, Exit, q')
      else if instr.CallLock? && !(q.waiting == [] && q.owner == FREE) then Dispatches(q, Lock, q')
      else
        && q'.ready == q.ready && q'.waiting == q.waiting && q'.cur == q.cur
        && q'.owner == (if instr.CallLock? then q.ready[q.cur]
                        else if instr.CallUnlock? && q.owner == q.ready[q.cur] then FREE
                        else q.owner)
  {
    WhoRunsNext(m.q, Exit);
    WhoRunsNext(m.q, Lock);
  }
}
