/** What every thread executes, and the books of the bank: what each bank thread prints, and the balance
    it leaves, whatever the interleaving. */
module ThreadBooks {
  import opened Scheduler
  import opened Threads
  import opened ThreadInvariant
  import opened ThreadRuns
  import opened ThreadResults

  // ----- the programs ---------------------------------------------------------------------

  /** The instructions a thread has still to execute. */
  function Code(t: Thread): seq<Instr>
    requires Ok(t)
    decreases Remaining(t)
  {
    if Exited(t) then []
    else
      NextFacts(t, 0);
      [Fetch(t)] + Code(Next(t, 0))
  }

  /** What a thread executes does not depend on the balance. */
  lemma {:induction false} SameCode(t: Thread, u: Thread)
    requires Ok(t) && u == t.(printed := u.printed)
    ensures Ok(u) && Code(u) == Code(t)
    decreases Remaining(t)
  {
    if !Exited(t) {
      NextFacts(t, 0);
      SameCode(Next(t, 0), Next(u, 0));
    }
  }

  /** Each instruction of a thread in turn. */
  lemma CodeStep(t: Thread, balance: int)
    requires Ok(t) && !Exited(t)
    ensures Ok(Next(t, balance)) && Code(t) == [Fetch(t)] + Code(Next(t, balance))
  {
    NextFacts(t, 0);
    NextFacts(t, balance);
    SameCode(Next(t, 0), Next(t, balance));
  }

  /** `n` iterations, with a yield after each but the last. */
  ghost predicate Iterations(code: seq<Instr>, n: nat) {
    && n > 0 && |code| == 2 * n
    && forall k | 0 <= k < 2 * n ::
         code[k] == if k % 2 == 0 then Compute else if k == 2 * n - 1 then CallExit else CallYield
  }

  lemma OneMore(code: seq<Instr>, n: nat)
    requires Iterations(code, n)
    ensures Iterations([Compute, CallYield] + code, n + 1)
  {
    var longer := [Compute, CallYield] + code;
    forall k | 0 <= k < 2 * n + 2
      ensures longer[k] == if k % 2 == 0 then Compute else if k == 2 * n + 1 then CallExit else CallYield
    {
      if k >= 2 {
        assert longer[k] == code[k - 2];
      }
    }
  }

  lemma {:induction false} FibonacciCode(t: Thread)
    requires t.body.Fibonacci? && Ok(t) && t.pc == 0
    ensures Iterations(Code(t), t.vars.arg - t.vars.i + 1)
    decreases t.vars.arg - t.vars.i
  {
    var u := Next(t, 0);
    assert Code(t) == [Compute] + Code(u);
    var v := Next(u, 0);
    if t.vars.i == t.vars.arg {
      assert Exited(v) && Code(u) == [CallExit] + Code(v);
    } else {
      assert Code(u) == [CallYield] + Code(v);
      FibonacciCode(v);
      OneMore(Code(v), t.vars.arg - t.vars.i);
      assert Code(t) == [Compute, CallYield] + Code(v);
    }
  }

  lemma {:induction false} FactorialCode(t: Thread)
    requires t.body.Factorial? && Ok(t) && t.pc == 0
    ensures Iterations(Code(t), t.vars.arg - t.vars.i2 + 1)
    decreases t.vars.arg - t.vars.i2
  {
    var u := Next(t, 0);
    assert Code(t) == [Compute] + Code(u);
    var v := Next(u, 0);
    if t.vars.i2 == t.vars.arg {
      assert Exited(v) && Code(u) == [CallExit] + Code(v);
    } else {
      assert Code(u) == [CallYield] + Code(v);
      FactorialCode(v);
      OneMore(Code(v), t.vars.arg - t.vars.i2);
      assert Code(t) == [Compute, CallYield] + Code(v);
    }
  }

  /** From program point `pc` on. */
  lemma {:induction false} BankCode(t: Thread)
    requires t.body.BankOperation? && Ok(t)
    ensures Code(t)
         == [CallLock, Compute, CallYield, Compute, CallYield, CallUnlock, Compute, CallExit][t.pc..]
    decreases 8 - t.pc
  {
    if t.pc < 8 {
      BankCode(Next(t, 0));
    }
  }

  lemma {:induction false} ScriptCode(t: Thread)
    requires t.body.Script? && Ok(t)
    ensures Code(t) == t.body.code[t.pc..]
    decreases |t.body.code| - t.pc
  {
    if t.pc < |t.body.code| {
      ScriptCode(Next(t, 0));
    }
  }

  /** The instructions of every thread, from its creation to its exit. */
  lemma Programs(body: Body, arg: int)
    requires Ok(NewThread(body, arg))
    ensures var code := Code(NewThread(body, arg));
      match body
      case Fibonacci => Iterations(code, arg)
      case Factorial => Iterations(code, arg)
      case BankOperation =>
        code == [CallLock, Compute, CallYield, Compute, CallYield, CallUnlock, Compute, CallExit]
      case Script(script) => code == script
  {
    var t := NewThread(body, arg);
    match body
    case Fibonacci => FibonacciCode(t);
    case Factorial => FactorialCode(t);
    case BankOperation => BankCode(t);
    case Script(_) => ScriptCode(t);
  }

  // ----- what a bank thread prints --------------------------------------------------------

  /** A bank thread that has not updated the balance yet. */
  ghost predicate EarlyLines(t: Thread) { t.printed == if t.pc <= 1 then [] else [Acquired] }

  /** One that has, from `before` to `after`. */
  ghost predicate LateLines(t: Thread, before: int, after: int) {
    t.pc >= 4 && t.printed == [Acquired, Amounts(before, after)] + if t.pc >= 7 then [Released] else []
  }

  ghost predicate Updated(threads: map<int, Thread>, updates: seq<int>, args: map<int, int>, k: nat)
    requires k < |updates|
  {
    && updates[k] in threads && threads[updates[k]].body.BankOperation?
    && LateLines(threads[updates[k]], Settle(args, updates[..k]), Settle(args, updates[..k + 1]))
  }

  ghost predicate LinesInv(m: Machine, args: map<int, int>) {
    && (forall id :: id in m.threads && m.threads[id].body.BankOperation? && m.threads[id].pc <= 3 ==>
         EarlyLines(m.threads[id]))
    && forall k: nat :: k < |m.updates| ==> Updated(m.threads, m.updates, args, k)
  }

  /** A step of a thread that does not update the balance. */
  lemma MoveKeepsLines(m: Machine, m': Machine, me: int, args: map<int, int>)
    requires LinesInv(m, args) && me in m.threads && Ok(m.threads[me]) && !Exited(m.threads[me])
    requires !Updates(m.threads[me]) && m'.updates == m.updates
    requires m'.threads == m.threads[me := Next(m.threads[me], m.balance)]
    ensures LinesInv(m', args)
  {
    var t := m.threads[me];
    if t.body.BankOperation? && t.pc <= 3 {
      assert EarlyLines(t) && EarlyLines(Next(t, m.balance));
    }
    forall k: nat | k < |m.updates| ensures Updated(m'.threads, m.updates, args, k) {
      assert Updated(m.threads, m.updates, args, k);
    }
  }

  /** The step that does. */
  lemma UpdateKeepsLines(m: Machine, m': Machine, me: int, args: map<int, int>)
    requires LinesInv(m, args) && me in m.threads && Updates(m.threads[me])
    requires me in args && args[me] == m.threads[me].vars.arg && m.balance == Settle(args, m.updates)
    requires m'.threads == m.threads[me := Next(m.threads[me], m.balance)] && m'.updates == m.updates + [me]
    ensures LinesInv(m', args)
  {
    SettleAppend(args, m.updates, me);
    assert EarlyLines(m.threads[me]);
    forall k: nat | k < |m'.updates| ensures Updated(m'.threads, m'.updates, args, k) {
      assert m'.updates[..k] == m.updates[..k];
      if k < |m.updates| {
        assert Updated(m.threads, m.updates, args, k);
        assert m'.updates[..k + 1] == m.updates[..k + 1];
      } else {
        assert m'.updates[..k + 1] == m.updates + [me] && m.updates[..k] == m.updates;
      }
    }
  }

  lemma StepBooks(m: Machine, signal: bool)
    requires Runnable(m)
    ensures var me, m' := m.q.ready[m.q.cur], Step(m, signal);
      && m'.threads == m.threads[me := Next(m.threads[me], m.balance)]
      && m'.updates == if Updates(m.threads[me]) then m.updates + [me] else m.updates
  {
  }

  lemma StepKeepsLines(m: Machine, signal: bool, bankers: set<int>, args: map<int, int>)
    requires RunInv(m) && BankInv(m, bankers, args) && LinesInv(m, args)
    ensures LinesInv(Step(m, signal), args)
  {
    if Runnable(m) {
      var me := m.q.ready[m.q.cur];
      StepBooks(m, signal);
      assert Ok(m.threads[me]);
      if Updates(m.threads[me]) {
        UpdateKeepsLines(m, Step(m, signal), me, args);
      } else {
        MoveKeepsLines(m, Step(m, signal), me, args);
      }
    }
  }

  lemma {:induction false} RunKeepsLines(m: Machine, signals: seq<bool>, bankers: set<int>, args: map<int, int>)
    requires RunInv(m) && BankInv(m, bankers, args) && LinesInv(m, args)
    ensures LinesInv(Run(m, signals), args)
    decreases |signals|
  {
    if signals == [] {
    } else {
      StepKeepsLines(m, signals[0], bankers, args);
      StepKeepsBank(m, signals[0], bankers, args);
      StepKeepsRunInv(m, signals[0]);
      RunKeepsLines(Step(m, signals[0]), signals[1..], bankers, args);
    }
  }

  // ----- the books ------------------------------------------------------------------------

  /** Opening balance, then after each transaction: its amount is added, unless the result would be
      negative. */
  ghost predicate Books(balances: seq<int>, amounts: seq<int>) {
    && |balances| == |amounts| + 1 && balances[0] == 500
    && forall k | 0 <= k < |amounts| ::
         balances[k + 1] == if balances[k] + amounts[k] < 0 then balances[k] else balances[k] + amounts[k]
  }

  /** The balances before and after the transactions of `ids`, in this order. */
  function Balances(args: map<int, int>, ids: seq<int>): (balances: seq<int>)
    ensures |balances| == |ids| + 1 && forall k | 0 <= k <= |ids| :: balances[k] == Settle(args, ids[..k])
  {
    seq(|ids| + 1, k requires 0 <= k <= |ids| => Settle(args, ids[..k]))
  }

  function Amounted(args: map<int, int>, ids: seq<int>): (amounts: seq<int>)
    requires forall k | 0 <= k < |ids| :: ids[k] in args
    ensures |amounts| == |ids| && forall k | 0 <= k < |ids| :: amounts[k] == args[ids[k]]
  {
    seq(|ids|, k requires 0 <= k < |ids| => args[ids[k]])
  }

  lemma SettleKeepsBooks(args: map<int, int>, ids: seq<int>)
    requires forall k | 0 <= k < |ids| :: ids[k] in args
    ensures Books(Balances(args, ids), Amounted(args, ids))
  {
    var balances := Balances(args, ids);
    forall k | 0 <= k < |ids| ensures balances[k + 1] == Transact(balances[k], args[ids[k]]) && balances[k] >= 0 {
      assert ids[..k + 1] == ids[..k] + [ids[k]];
      SettleAppend(args, ids[..k], ids[k]);
      SettleNonNegative(args, ids[..k]);
    }
    assert ids[..0] == [];
  }

  lemma {:induction false} BankersAre(bankers: set<int>, ids: seq<int>, id: int)
    ensures id in Bankers(bankers, ids) <==> id in ids && id in bankers
    decreases |ids|
  {
    if ids == [] {
    } else {
      var n := |ids| - 1;
      assert ids == ids[..n] + [ids[n]];
      BankersAre(bankers, ids[..n], id);
    }
  }

  lemma InitBooks(created: seq<int>, threads: map<int, Thread>)
    requires ValidStart(created, threads)
    ensures var m := Init(created, threads);
      RunInv(m) && BankInv(m, BankIds(threads), Args(threads)) && LinesInv(m, Args(threads))
  {
    InitRunInv(created, threads);
  }

  lemma EndBooks(created: seq<int>, threads: map<int, Thread>, signals: seq<bool>)
    requires ValidStart(created, threads)
    ensures var m := Run(Init(created, threads), signals);
      RunInv(m) && BankInv(m, BankIds(threads), Args(threads)) && LinesInv(m, Args(threads))
  {
    var m := Init(created, threads);
    InitBooks(created, threads);
    RunKeepsRunInv(m, signals);
    RunKeepsBank(m, signals, BankIds(threads), Args(threads));
    RunKeepsLines(m, signals, BankIds(threads), Args(threads));
  }

  /** When all threads have exited, every grant has been followed by its update. */
  lemma AllUpdated(m: Machine, bankers: set<int>, args: map<int, int>)
    requires RunInv(m) && BankInv(m, bankers, args) && m.requests == m.grants + m.q.waiting
    requires m.q.ready == [] && m.q.waiting == []
    ensures m.updates == Bankers(bankers, m.requests)
  {
    assert m.q.owner == FREE;
    assert m.updates + Unsettled(m) == m.updates && m.requests == m.grants;
  }

  lemma UpdatedInTheEnd(created: seq<int>, threads: map<int, Thread>, signals: seq<bool>)
    requires ValidStart(created, threads) && |signals| >= Total(created, threads)
    ensures var m := Run(Init(created, threads), signals);
      && m.updates == Bankers(BankIds(threads), m.requests)
      && forall id | id in threads :: id in m.threads && Exited(m.threads[id])
  {
    EndBooks(created, threads, signals);
    AllThreadsExit(created, threads, signals);
    LockIsFirstComeFirstServed(created, threads, signals);
    AllUpdated(Run(Init(created, threads), signals), BankIds(threads), Args(threads));
  }

  /** The threads that have updated the balance and exited. */
  lemma BooksOf(m: Machine, args: map<int, int>)
    requires LinesInv(m, args) && m.balance == Settle(args, m.updates)
    requires forall k | 0 <= k < |m.updates| ::
      m.updates[k] in args && m.updates[k] in m.threads && Exited(m.threads[m.updates[k]])
    ensures var ids, balances := m.updates, Balances(args, m.updates);
      && Books(balances, Amounted(args, ids)) && m.balance == balances[|ids|]
      && forall k | 0 <= k < |ids| :: AllLines(m.threads[ids[k]], balances[k], balances[k + 1])
  {
    var ids, balances := m.updates, Balances(args, m.updates);
    SettleKeepsBooks(args, ids);
    assert ids[..|ids|] == ids;
    forall k | 0 <= k < |ids| ensures AllLines(m.threads[ids[k]], balances[k], balances[k + 1]) {
      assert Updated(m.threads, m.updates, args, k);
    }
  }

  /** What a bank thread has printed when it has exited. */
  ghost predicate AllLines(t: Thread, before: int, after: int) {
    t.printed == [Acquired, Amounts(before, after), Released]
  }

  /** The books balance: with the bank threads taken in the order of their lock() calls, the opening
      balance is 500, each amount is added unless the balance would become negative, the last balance is
      the bank's at the end, and each thread has printed that it had the lock, the balance before and
      after its own transaction, and that it released the lock. */
  lemma BankBooks(created: seq<int>, threads: map<int, Thread>, signals: seq<bool>)
    returns (ids: seq<int>, amounts: seq<int>, balances: seq<int>)
    requires ValidStart(created, threads) && |signals| >= Total(created, threads)
    ensures var m := Run(Init(created, threads), signals);
      && ids == Bankers(BankIds(threads), m.requests) && |amounts| == |ids|
      && Books(balances, amounts) && m.balance == balances[|ids|]
      && forall k | 0 <= k < |ids| ::
           && ids[k] in threads && ids[k] in m.threads && amounts[k] == threads[ids[k]].vars.arg
           && AllLines(m.threads[ids[k]], balances[k], balances[k + 1])
  {
    var m, args := Run(Init(created, threads), signals), Args(threads);
    EndBooks(created, threads, signals);
    UpdatedInTheEnd(created, threads, signals);
    ids := m.updates;
    forall k | 0 <= k < |ids| ensures ids[k] in threads {
      BankersAre(BankIds(threads), m.requests, ids[k]);
      assert ids[k] in ids;
    }
    BooksOf(m, args);
    amounts, balances := Amounted(args, ids), Balances(args, ids);
  }
}
