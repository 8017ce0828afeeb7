/** What the thread functions print and what becomes of the balance, in every interleaving. */
module ThreadResults {
  import opened Scheduler
  import opened Threads
  import opened ThreadInvariant
  import opened ThreadRuns

  // ----- Fibonacci and factorial threads --------------------------------------------------

  /** The first `n` lines of a Fibonacci thread, and of a factorial thread. */
  function FibLines(n: nat): (lines: seq<Line>)
    ensures |lines| == n && forall k | 0 <= k < n :: lines[k] == Number(Fib(k + 1))
  {
    if n == 0 then [] else FibLines(n - 1) + [Number(Fib(n))]
  }

  function FactLines(n: nat): (lines: seq<Line>)
    ensures |lines| == n && forall k | 0 <= k < n :: lines[k] == Number(Fact(k + 1))
  {
    if n == 0 then [] else FactLines(n - 1) + [Number(Fact(n))]
  }

  /** The control block agrees with the iterations completed so far. */
  ghost predicate FibFaithful(t: Thread) {
    var k := if t.pc == 0 then t.vars.i - 1 else t.vars.i;
    k >= 0 && t.printed == FibLines(k) && (t.pc == 2 ==> k == t.vars.arg) && FibSoFar(t.vars, k)
  }

  ghost predicate FactFaithful(t: Thread) {
    var k := if t.pc == 0 then t.vars.i2 - 1 else t.vars.i2;
    k >= 0 && t.printed == FactLines(k) && (t.pc == 2 ==> k == t.vars.arg) && FactSoFar(t.vars, k)
  }

  ghost predicate Faithful(t: Thread) {
    && (t.body.Fibonacci? ==> FibFaithful(t))
    && (t.body.Factorial? ==> FactFaithful(t))
  }

  lemma FibStaysFaithful(t: Thread, balance: int)
    requires t.body.Fibonacci? && Ok(t) && !Exited(t) && FibFaithful(t)
    ensures FibFaithful(Next(t, balance))
  {
  }

  lemma FactStaysFaithful(t: Thread, balance: int)
    requires t.body.Factorial? && Ok(t) && !Exited(t) && FactFaithful(t)
    ensures FactFaithful(Next(t, balance))
  {
    if t.pc == 0 {
      var k := t.vars.i2;
      assert Fact(k) == k * Fact(k - 1) == t.vars.z * k;
    }
  }

  lemma NextIsFaithful(t: Thread, balance: int)
    requires Ok(t) && Faithful(t) && !Exited(t)
    ensures Faithful(Next(t, balance))
  {
    if t.body.Fibonacci? {
      FibStaysFaithful(t, balance);
    } else if t.body.Factorial? {
      FactStaysFaithful(t, balance);
    }
  }

  ghost predicate AllFaithful(m: Machine) { forall id :: id in m.threads ==> Faithful(m.threads[id]) }

  lemma StepStaysFaithful(m: Machine, signal: bool)
    requires RunInv(m) && AllFaithful(m)
    ensures AllFaithful(Step(m, signal))
  {
    if Runnable(m) {
      var id := m.q.ready[m.q.cur];
      assert Ok(m.threads[id]) && Faithful(m.threads[id]);
      NextIsFaithful(m.threads[id], m.balance);
    }
  }

  lemma {:induction false} RunStaysFaithful(m: Machine, signals: seq<bool>)
    requires RunInv(m) && AllFaithful(m)
    ensures AllFaithful(Run(m, signals))
    decreases |signals|
  {
    if signals == [] {
    } else {
      StepKeepsRunInv(m, signals[0]);
      StepStaysFaithful(m, signals[0]);
      RunStaysFaithful(Step(m, signals[0]), signals[1..]);
    }
  }

  /** No step changes what a thread is. */
  ghost predicate SameThreads(threads: map<int, Thread>, threads': map<int, Thread>) {
    threads'.Keys == threads.Keys
    && forall id :: id in threads ==>
         threads'[id].body == threads[id].body && threads'[id].vars.arg == threads[id].vars.arg
  }

  lemma StepKeepsThreads(m: Machine, signal: bool)
    ensures SameThreads(m.threads, Step(m, signal).threads)
  {
    if Runnable(m) {
      StepEffect(m, signal);
    }
  }

  lemma SameThreadsOnward(a: map<int, Thread>, b: map<int, Thread>, c: map<int, Thread>)
    requires SameThreads(a, b) && SameThreads(b, c)
    ensures SameThreads(a, c)
  {
  }

  lemma {:induction false} RunKeepsThreads(m: Machine, signals: seq<bool>)
    ensures SameThreads(m.threads, Run(m, signals).threads)
    decreases |signals|
  {
    if signals == [] {
    } else {
      var m1 := Step(m, signals[0]);
      StepKeepsThreads(m, signals[0]);
      RunKeepsThreads(m1, signals[1..]);
      SameThreadsOnward(m.threads, m1.threads, Run(m1, signals[1..]).threads);
    }
  }

  /** Scheduling independence: however the threads are interleaved, a Fibonacci thread prints
      exactly Fib(1) to Fib(n), and a factorial thread exactly 1! to n!. */
  lemma OutputIsIndependent(created: seq<int>, threads: map<int, Thread>, signals: seq<bool>, id: int)
    requires ValidStart(created, threads) && |signals| >= Total(created, threads) && id in threads
    ensures var m := Run(Init(created, threads), signals);
      && id in m.threads && threads[id].vars.arg == m.threads[id].vars.arg
      && (threads[id].body.Fibonacci? ==> m.threads[id].printed == FibLines(threads[id].vars.arg))
      && (threads[id].body.Factorial? ==> m.threads[id].printed == FactLines(threads[id].vars.arg))
  {
    var m0 := Init(created, threads);
    InitRunInv(created, threads);
    assert AllFaithful(m0);
    RunStaysFaithful(m0, signals);
    RunKeepsThreads(m0, signals);
    AllThreadsExit(created, threads, signals);
    ReachableRunInv(created, threads, signals);
    var t := Run(m0, signals).threads[id];
    assert Faithful(t) && Ok(t) && Exited(t);
  }

  const INT_MAX := 0x7FFF_FFFF

  lemma {:induction false} FibGrows(n: nat, k: nat)
    requires 1 <= k <= n
    ensures 1 <= Fib(k) <= Fib(n)
    decreases n
  {
    if n <= 2 {
    } else {
      FibGrows(n - 1, if k < n then k else n - 1);
      FibGrows(n - 2, 1);
    }
  }

  lemma {:induction false} FactGrows(n: nat, k: nat)
    requires k <= n
    ensures 1 <= Fact(k) <= Fact(n)
    decreases n
  {
    if k < n {
      FactGrows(n - 1, k);
    } else if n > 0 {
      FactGrows(n - 1, n - 1);
    }
  }

  lemma FibLimits()
    ensures Fib(46) == 1836311903 && Fib(47) == 2971215073
  {
    assert Fib(23) == 28657 && Fib(24) == 46368;
    assert Fib(34) == 5702887 && Fib(35) == 9227465;
  }

  /** The printed numbers are those of a 32-bit int exactly up to these arguments. */
  lemma FibFitsIff(n: nat)
    ensures (forall k: nat :: 1 <= k <= n ==> Fib(k) <= INT_MAX) <==> n <= 46
  {
    FibLimits();
    if n <= 46 {
      forall k: nat | 1 <= k <= n ensures Fib(k) <= INT_MAX {
        FibGrows(46, k);
      }
    } else {
      FibGrows(n, 47);
    }
  }

  lemma FactFitsIff(n: nat)
    ensures (forall k: nat :: 1 <= k <= n ==> Fact(k) <= INT_MAX) <==> n <= 12
  {
    assert Fact(12) == 479001600;
    assert Fact(13) == 13 * Fact(12);
    if n <= 12 {
      forall k: nat | 1 <= k <= n ensures Fact(k) <= INT_MAX {
        FactGrows(12, k);
      }
    } else {
      FactGrows(n, 13);
    }
  }

  // ----- the bank -------------------------------------------------------------------------

  /** The balance after the given threads' transactions, one after the other. */
  function Settle(args: map<int, int>, ids: seq<int>): int {
    if ids == [] then OPENING_BALANCE
    else
      var last := ids[|ids| - 1];
      Transact(Settle(args, ids[..|ids| - 1]), if last in args then args[last] else 0)
  }

  /** The bank threads among `ids`, in order. */
  function Bankers(bankers: set<int>, ids: seq<int>): seq<int> {
    if ids == [] then []
    else Bankers(bankers, ids[..|ids| - 1]) + (if ids[|ids| - 1] in bankers then [ids[|ids| - 1]] else [])
  }

  lemma BankersAppend(bankers: set<int>, ids: seq<int>, more: seq<int>)
    requires |more| <= 1
    ensures Bankers(bankers, ids + more) == Bankers(bankers, ids) + Bankers(bankers, more)
  {
    if |more| == 1 {
      assert (ids + more)[..|ids|] == ids;
      assert more[..0] == [];
    } else {
      assert ids + more == ids;
    }
  }

  lemma SettleAppend(args: map<int, int>, ids: seq<int>, id: int)
    requires id in args
    ensures Settle(args, ids + [id]) == Transact(Settle(args, ids), args[id])
  {
    assert (ids + [id])[..|ids|] == ids;
  }

  function BankIds(threads: map<int, Thread>): set<int> { set id | id in threads && threads[id].body.BankOperation? }

  function Args(threads: map<int, Thread>): map<int, int> { map id | id in threads :: threads[id].vars.arg }

  /** The lock's owner, if it is a bank thread that has not updated the balance yet. */
  ghost function Unsettled(m: Machine): seq<int> {
    if m.q.owner in m.threads && m.threads[m.q.owner].body.BankOperation? && m.threads[m.q.owner].pc <= 3
    then [m.q.owner] else []
  }

  /** The balance is what the updates made it, and the updates follow the grants. A waiting bank
      thread is in its call of lock(). */
  ghost predicate BankInv(m: Machine, bankers: set<int>, args: map<int, int>) {
    && FREE !in m.threads && bankers == BankIds(m.threads) && args == Args(m.threads)
    && m.balance == Settle(args, m.updates)
    && Bankers(bankers, m.grants) == m.updates + Unsettled(m)
    && (forall id :: id in m.q.waiting && id in bankers ==> m.threads[id].pc == 1)
  }

  lemma OneBanker(bankers: set<int>, id: int)
    ensures Bankers(bankers, [id]) == if id in bankers then [id] else []
  {
    assert [id][..0] == [];
  }

  /** An entry of the scheduler that grants nothing. */
  lemma NoGrantKeepsBank(m: Machine, m': Machine, bankers: set<int>, args: map<int, int>)
    requires BankInv(m, bankers, args) && m' == m.(q := m'.q) && m'.q.owner == m.q.owner
    requires forall id :: id in m'.q.waiting && id in bankers ==> m.threads[id].pc == 1
    ensures BankInv(m', bankers, args)
  {
  }

  /** Giving the lock away keeps the books straight. */
  lemma GrantKeepsBank(m: Machine, m': Machine, id: int, bankers: set<int>, args: map<int, int>)
    requires BankInv(m, bankers, args) && m' == m.(q := m'.q, grants := m.grants + [id])
    requires m.q.owner == FREE && m'.q.owner == id && (id in bankers ==> m.threads[id].pc == 1)
    requires forall id :: id in m'.q.waiting && id in bankers ==> m.threads[id].pc == 1
    ensures BankInv(m', bankers, args)
  {
    BankersAppend(bankers, m.grants, [id]);
    OneBanker(bankers, id);
    assert Unsettled(m) == [];
  }

  lemma EnterKeepsBank(m: Machine, e: Entry, bankers: set<int>, args: map<int, int>)
    requires Distinct(m.q) && m.q.cur < |m.q.ready| && BankInv(m, bankers, args)
    requires e.Lock? && m.q.ready[m.q.cur] in bankers ==> m.threads[m.q.ready[m.q.cur]].pc == 1
    ensures BankInv(Reschedule(m, e), bankers, args)
  {
    var m' := Reschedule(m, e);
    EnterFacts(m.q, e);
    if Granted(m.q, e) == [] {
      assert m'.grants == m.grants;
      NoGrantKeepsBank(m, m', bankers, args);
    } else {
      GrantKeepsBank(m, m', Granted(m.q, e)[0], bankers, args);
    }
  }

  /** A thread that runs on without entering the scheduler or updating the balance. */
  lemma RunningKeepsBank(m: Machine, t': Thread, bankers: set<int>, args: map<int, int>)
    requires BankInv(m, bankers, args) && Distinct(m.q) && m.q.cur < |m.q.ready| && m.q.ready[m.q.cur] in m.threads
    requires var me := m.q.ready[m.q.cur]; var t := m.threads[me];
      && t'.body == t.body && t'.vars.arg == t.vars.arg
      && (t.body.BankOperation? && m.q.owner == me ==> (t.pc <= 3 <==> t'.pc <= 3))
    ensures BankInv(m.(threads := m.threads[m.q.ready[m.q.cur] := t']), bankers, args)
  {
    var me := m.q.ready[m.q.cur];
    var m' := m.(threads := m.threads[me := t']);
    assert me in m.q.ready && me !in m.q.waiting;
    SameBooks(m.threads, me, t');
    assert Unsettled(m') == Unsettled(m);
  }

  /** The books do not depend on where a thread is. */
  lemma SameBooks(threads: map<int, Thread>, me: int, t': Thread)
    requires me in threads && t'.body == threads[me].body && t'.vars.arg == threads[me].vars.arg
    ensures BankIds(threads[me := t']) == BankIds(threads) && Args(threads[me := t']) == Args(threads)
  {
  }

  /** The lock's owner updates the balance. */
  lemma UpdateKeepsBank(m: Machine, me: int, t': Thread, bankers: set<int>, args: map<int, int>)
    requires BankInv(m, bankers, args) && m.q.owner == me && me !in m.q.waiting && me in m.threads
    requires Updates(m.threads[me]) && t' == m.threads[me].(pc := 4, printed := t'.printed)
    ensures BankInv(m.(threads := m.threads[me := t'], balance := Transact(m.balance, t'.vars.arg),
                       updates := m.updates + [me]), bankers, args)
  {
    SameBooks(m.threads, me, t');
    SettleAppend(args, m.updates, me);
    assert Unsettled(m) == [me];
  }

  /** The scheduler's part of a step. */
  lemma CallKeepsBank(m: Machine, instr: Instr, me: int, signal: bool, bankers: set<int>, args: map<int, int>)
    requires BankInv(m, bankers, args) && Distinct(m.q) && m.q.cur < |m.q.ready| && m.q.ready[m.q.cur] == me
    requires instr.CallLock? && me in bankers ==> m.threads[me].pc == 1
    requires instr.CallUnlock? && m.q.owner == me ==> Unsettled(m) == []
    ensures BankInv(Reacted(m, me, instr, signal), bankers, args)
  {
    match instr
    case Compute =>
    case CallYield => EnterKeepsBank(m, Yield, bankers, args);
    case CallLock => EnterKeepsBank(m.(requests := m.requests + [me]), Lock, bankers, args);
    case CallUnlock =>
    case CallExit => EnterKeepsBank(m, Exit, bankers, args);
  }

  lemma OtherStepKeepsBank(m: Machine, bankers: set<int>, args: map<int, int>)
    requires BankInv(m, bankers, args) && RunInv(m) && Runnable(m) && !Updates(m.threads[m.q.ready[m.q.cur]])
    ensures BankInv(Executed(m), bankers, args) && Executed(m).q == m.q
    ensures var me := m.q.ready[m.q.cur]; var instr, m' := Fetch(m.threads[me]), Executed(m);
      && (instr.CallLock? && me in bankers ==> m'.threads[me].pc == 1)
      && (instr.CallUnlock? && m.q.owner == me ==> Unsettled(m') == [])
  {
    var me := m.q.ready[m.q.cur];
    assert me in m.q.ready && (m.q.owner == me <==> me in LockingIds(m.threads));
    NextFacts(m.threads[me], m.balance);
    RunningKeepsBank(m, Next(m.threads[me], m.balance), bankers, args);
  }

  lemma UpdateStepKeepsBank(m: Machine, bankers: set<int>, args: map<int, int>)
    requires BankInv(m, bankers, args) && RunInv(m) && Runnable(m) && Updates(m.threads[m.q.ready[m.q.cur]])
    ensures BankInv(Executed(m), bankers, args) && Fetch(m.threads[m.q.ready[m.q.cur]]).Compute?
  {
    var me := m.q.ready[m.q.cur];
    assert me in m.q.ready && me !in m.q.waiting && me in LockingIds(m.threads);
    UpdateKeepsBank(m, me, Next(m.threads[me], m.balance), bankers, args);
  }

  lemma StepKeepsBank(m: Machine, signal: bool, bankers: set<int>, args: map<int, int>)
    requires BankInv(m, bankers, args) && RunInv(m)
    ensures BankInv(Step(m, signal), bankers, args)
  {
    if Runnable(m) {
      var me := m.q.ready[m.q.cur];
      if Updates(m.threads[me]) {
        UpdateStepKeepsBank(m, bankers, args);
      } else {
        OtherStepKeepsBank(m, bankers, args);
        CallKeepsBank(Executed(m), Fetch(m.threads[me]), me, signal, bankers, args);
      }
    }
  }

  lemma {:induction false} RunKeepsBank(m: Machine, signals: seq<bool>, bankers: set<int>, args: map<int, int>)
    requires BankInv(m, bankers, args) && RunInv(m)
    ensures BankInv(Run(m, signals), bankers, args)
    decreases |signals|
  {
    if signals == [] {
    } else {
      StepKeepsBank(m, signals[0], bankers, args);
      StepKeepsRunInv(m, signals[0]);
      RunKeepsBank(Step(m, signals[0]), signals[1..], bankers, args);
    }
  }

  /** A bank thread calls lock() once. */
  ghost predicate RequestInv(m: Machine) {
    forall id :: id in m.threads && m.threads[id].body.BankOperation? ==>
      multiset(m.requests)[id] == if m.threads[id].pc >= 1 then 1 else 0
  }

  lemma CountAppend(ids: seq<int>, me: int, id: int)
    ensures multiset(ids + [me])[id] == multiset(ids)[id] + if me == id then 1 else 0
  {
  }

  lemma StepEffect(m: Machine, signal: bool)
    requires Runnable(m)
    ensures var m' := Step(m, signal); var me := m.q.ready[m.q.cur]; var t := m.threads[me];
      && m'.threads == m.threads[me := Next(t, m.balance)]
      && m'.requests == if Fetch(t).CallLock? then m.requests + [me] else m.requests
  {
  }

  lemma StepKeepsRequests(m: Machine, signal: bool)
    requires RequestInv(m)
    ensures RequestInv(Step(m, signal))
  {
    if Runnable(m) {
      var me, m' := m.q.ready[m.q.cur], Step(m, signal);
      StepEffect(m, signal);
      forall id | id in m'.threads && m'.threads[id].body.BankOperation?
        ensures multiset(m'.requests)[id] == if m'.threads[id].pc >= 1 then 1 else 0
      {
        CountAppend(m.requests, me, id);
      }
    }
  }

  lemma {:induction false} RunKeepsRequests(m: Machine, signals: seq<bool>)
    requires RequestInv(m)
    ensures RequestInv(Run(m, signals))
    decreases |signals|
  {
    if signals == [] {
    } else {
      StepKeepsRequests(m, signals[0]);
      RunKeepsRequests(Step(m, signals[0]), signals[1..]);
    }
  }

  /** Serializability: once all threads have exited, the balance is the result of the bank
      threads' transactions, each of them once, executed one after the other in the order of
      their lock() calls. */
  lemma BankIsSerializable(created: seq<int>, threads: map<int, Thread>, signals: seq<bool>)
    requires ValidStart(created, threads) && |signals| >= Total(created, threads)
    ensures var m := Run(Init(created, threads), signals);
      && m.balance == Settle(Args(threads), Bankers(BankIds(threads), m.requests))
      && forall id :: id in BankIds(threads) ==> multiset(m.requests)[id] == 1
  {
    var m0 := Init(created, threads);
    InitRunInv(created, threads);
    assert BankInv(m0, BankIds(threads), Args(threads));
    RunKeepsBank(m0, signals, BankIds(threads), Args(threads));
    RunKeepsRequests(m0, signals);
    AllThreadsExit(created, threads, signals);
    LockIsFirstComeFirstServed(created, threads, signals);
    ReachableRunInv(created, threads, signals);
    var m := Run(m0, signals);
    assert m.q.owner == FREE;
    assert m.updates + Unsettled(m) == m.updates;
    assert m.requests == m.grants;
    forall id | id in BankIds(threads) ensures multiset(m.requests)[id] == 1 {
      assert id in BankIds(m.threads);
    }
  }

  lemma {:induction false} SettleNonNegative(args: map<int, int>, ids: seq<int>)
    ensures Settle(args, ids) >= 0
  {
    if ids == [] {
    } else {
      SettleNonNegative(args, ids[..|ids| - 1]);
    }
  }

  /** The balance is never negative, at no point of any run. */
  lemma NeverOverdrawn(created: seq<int>, threads: map<int, Thread>, signals: seq<bool>)
    requires ValidStart(created, threads)
    ensures Run(Init(created, threads), signals).balance >= 0
  {
    var m0 := Init(created, threads);
    InitRunInv(created, threads);
    assert BankInv(m0, BankIds(threads), Args(threads));
    RunKeepsBank(m0, signals, BankIds(threads), Args(threads));
    SettleNonNegative(Args(threads), Run(m0, signals).updates);
  }

  // ----- bounded bypass -------------------------------------------------------------------

  /** How many slots the scheduler's circle is away from running the thread in slot `k`. */
  function Distance(q: Queues, k: nat): nat
    requires k < |q.ready| && q.cur < |q.ready|
  {
    if k >= q.cur then k - q.cur else k + |q.ready| - q.cur
  }

  lemma NextSlot(cur: nat, len: nat)
    requires cur < len
    ensures (cur + 1) % len == if cur + 1 == len then 0 else cur + 1
  {
  }

  /** The removal of the running thread brings the others at least as close as they were, not
      counting the thread removed. */
  lemma RemovalFallsBack(q: Queues, k: nat) returns (k': nat)
    requires q.cur < |q.ready| && k < |q.ready| && k != q.cur
    ensures k' == if k == |q.ready| - 1 then q.cur else k
    ensures var q' := RemoveRunning(q);
      && k' < |q'.ready| && q'.cur < |q'.ready| && q'.ready[k'] == q.ready[k]
      && Distance(q', k') <= if k > q.cur then k - q.cur else k + |q.ready| - 1 - q.cur
  {
    k' := if k == |q.ready| - 1 then q.cur else k;
  }

  /** On no entry does a ready thread other than the running one fall back, in spite of holes
      filled from the tail and of woken waiters at the end; a plain yield brings it one closer. */
  lemma NobodyFallsBack(q: Queues, e: Entry, k: nat) returns (k': nat)
    requires q.cur < |q.ready| && k < |q.ready| && k != q.cur
    ensures var q' := Enter(q, e);
      && k' < |q'.ready| && q'.cur < |q'.ready| && q'.ready[k'] == q.ready[k]
      && Distance(q', k') <= Distance(q, k)
      && (e.Yield? && !Wakes(q) ==> Distance(q', k') == Distance(q, k) - 1)
  {
    var q1 := WakeFirst(q);
    assert q1.cur == q.cur && q1.ready[k] == q.ready[k];
    if Leaves(q, e) {
      k' := RemovalFallsBack(q1, k);
      assert Enter(q, e).ready == RemoveRunning(q1).ready && Enter(q, e).cur == RemoveRunning(q1).cur;
    } else {
      k' := k;
      NextSlot(q.cur, |q1.ready|);
    }
  }

  /** The thread is not the running one at any time of the run. */
  ghost predicate PassedOver(m: Machine, signals: seq<bool>, id: int)
    decreases |signals|
  {
    && m.q.cur < |m.q.ready| && m.q.ready[m.q.cur] != id
    && (signals != [] ==> PassedOver(Step(m, signals[0]), signals[1..], id))
  }

  predicate PlainYield(m: Machine, signal: bool) {
    Runnable(m) && Fetch(m.threads[m.q.ready[m.q.cur]]).CallYield? && signal && !Wakes(m.q)
  }

  function PlainYields(m: Machine, signals: seq<bool>): nat
    decreases |signals|
  {
    if signals == [] then 0
    else (if PlainYield(m, signals[0]) then 1 else 0) + PlainYields(Step(m, signals[0]), signals[1..])
  }

  lemma StepBypass(m: Machine, signal: bool, k: nat) returns (k': nat)
    requires RunInv(m) && m.q.cur < |m.q.ready| && k < |m.q.ready| && k != m.q.cur
    ensures var q, q' := m.q, Step(m, signal).q;
      && k' < |q'.ready| && q'.cur < |q'.ready| && q'.ready[k'] == q.ready[k]
      && Distance(q', k') + (if PlainYield(m, signal) then 1 else 0) <= Distance(q, k)
  {
    NeverEmptySlot(m);
    k' := k;
    match Fetch(m.threads[m.q.ready[m.q.cur]])
    case CallYield => if signal { k' := NobodyFallsBack(m.q, Yield, k); }
    case CallLock => k' := NobodyFallsBack(m.q, Lock, k);
    case CallExit => k' := NobodyFallsBack(m.q, Exit, k);
    case Compute =>
    case CallUnlock =>
  }

  /** Bounded bypass: a ready thread is passed over by fewer time slices, yields that wake nobody,
      than its distance from the running thread. */
  lemma {:induction false} BypassIsBounded(m: Machine, signals: seq<bool>, k: nat)
    requires RunInv(m) && m.q.cur < |m.q.ready| && k < |m.q.ready|
    requires PassedOver(m, signals, m.q.ready[k])
    ensures PlainYields(m, signals) < Distance(m.q, k)
    decreases |signals|
  {
    if signals == [] {
    } else {
      var k' := StepBypass(m, signals[0], k);
      StepKeepsRunInv(m, signals[0]);
      BypassIsBounded(Step(m, signals[0]), signals[1..], k');
    }
  }
}
