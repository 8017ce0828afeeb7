/** Whole runs of threads under the scheduler, for every signal schedule. */
module ThreadRuns {
  import opened Scheduler
  import opened Threads
  import opened ThreadInvariant

  // ----- the queues and the lock ----------------------------------------------------------

  /** The queued threads are the live ones; among the ready ones the lock's owner is the one
      between lock() and unlock(); every waiter is inside its call of lock(). */
  ghost predicate QueueInv(q: Queues, live: set<int>, locking: set<int>) {
    && Distinct(q) && FREE !in live
    && (if q.ready == [] then q.waiting == [] else q.cur < |q.ready|)
    && (forall id :: id in q.ready || id in q.waiting <==> id in live)
    && (forall id :: id in q.ready ==> (id in locking <==> q.owner == id))
    && (forall id :: id in q.waiting ==> id in locking)
    && (q.owner == FREE || q.owner in q.ready)
  }

  lemma YieldKeepsQueues(q: Queues, live: set<int>, locking: set<int>)
    requires QueueInv(q, live, locking) && q.ready != []
    ensures QueueInv(Enter(q, Yield), live, locking)
  {
    EnterFacts(q, Yield);
    if Wakes(q) {
      assert q.waiting[0] in q.waiting;
    }
  }

  lemma ExitKeepsQueues(q: Queues, live: set<int>, locking: set<int>)
    requires QueueInv(q, live, locking) && q.ready != [] && q.ready[q.cur] !in locking
    ensures QueueInv(Enter(q, Exit), live - {q.ready[q.cur]}, locking)
  {
    var me, q' := q.ready[q.cur], Enter(q, Exit);
    EnterFacts(q, Exit);
    assert me in q.ready && q.owner != me;
    if Wakes(q) {
      assert q.waiting[0] in q.waiting && q.waiting[0] in q'.ready;
    } else if q.waiting != [] {
      assert q.owner in q'.ready;
    }
  }

  lemma LockKeepsQueues(q: Queues, live: set<int>, locking: set<int>)
    requires QueueInv(q, live, locking) && q.ready != [] && q.ready[q.cur] !in locking
    ensures QueueInv(Enter(q, Lock), live, locking + {q.ready[q.cur]})
  {
    var me, q' := q.ready[q.cur], Enter(q, Lock);
    EnterFacts(q, Lock);
    assert me in q.ready && q.owner != me;
    if Wakes(q) {
      assert q.waiting[0] in q.waiting && q.waiting[0] in q'.ready;
    } else if !Taken(q, Lock) {
      assert q.owner in q'.ready;
    }
  }

  lemma UnlockKeepsQueues(q: Queues, live: set<int>, locking: set<int>)
    requires QueueInv(q, live, locking) && q.ready != []
    ensures var me := q.ready[q.cur];
      QueueInv(if me == q.owner then q.(owner := FREE) else q, live, locking - {me})
  {
    assert q.ready[q.cur] in q.ready;
  }

  function LiveIds(threads: map<int, Thread>): set<int> { set id | id in threads && !Exited(threads[id]) }

  function LockingIds(threads: map<int, Thread>): set<int> { set id | id in threads && Locking(threads[id]) }

  ghost predicate AllOk(threads: map<int, Thread>) { forall id :: id in threads ==> Ok(threads[id]) }

  ghost predicate RunInv(m: Machine) {
    && AllOk(m.threads)
    && QueueInv(m.q, LiveIds(m.threads), LockingIds(m.threads))
  }

  /** Until every thread has exited, the running slot holds a thread that can go on. */
  lemma NeverEmptySlot(m: Machine)
    requires RunInv(m) && !Finished(m)
    ensures Runnable(m)
  {
    var me := m.q.ready[m.q.cur];
    assert me in m.q.ready;
    assert me in LiveIds(m.threads);
  }

  lemma IdsUpdate(threads: map<int, Thread>, id: int, t: Thread)
    requires id in threads
    ensures LiveIds(threads[id := t]) == if Exited(t) then LiveIds(threads) - {id} else LiveIds(threads) + {id}
    ensures LockingIds(threads[id := t])
         == if Locking(t) then LockingIds(threads) + {id} else LockingIds(threads) - {id}
  {
  }

  lemma StepKeepsOk(m: Machine, signal: bool)
    requires AllOk(m.threads)
    ensures AllOk(Step(m, signal).threads)
  {
    if Runnable(m) {
      var me := m.q.ready[m.q.cur];
      assert me in m.threads && Ok(m.threads[me]);
      NextFacts(m.threads[me], m.balance);
    }
  }

  lemma StepKeepsQueues(m: Machine, signal: bool)
    requires RunInv(m)
    ensures var m' := Step(m, signal); QueueInv(m'.q, LiveIds(m'.threads), LockingIds(m'.threads))
  {
    if Runnable(m) {
      var id := m.q.ready[m.q.cur];
      var t, live, locking := m.threads[id], LiveIds(m.threads), LockingIds(m.threads);
      NextFacts(t, m.balance);
      IdsUpdate(m.threads, id, Next(t, m.balance));
      assert id in live;
      match Fetch(t)
      case Compute =>
        assert (if Locking(t) then locking + {id} else locking - {id}) == locking;
      case CallYield =>
        assert (if Locking(t) then locking + {id} else locking - {id}) == locking;
        YieldKeepsQueues(m.q, live, locking);
      case CallLock => LockKeepsQueues(m.q, live, locking);
      case CallUnlock => UnlockKeepsQueues(m.q, live, locking);
      case CallExit =>
        assert locking - {id} == locking;
        ExitKeepsQueues(m.q, live, locking);
    }
  }

  lemma StepKeepsRunInv(m: Machine, signal: bool)
    requires RunInv(m)
    ensures RunInv(Step(m, signal))
  {
    StepKeepsOk(m, signal);
    StepKeepsQueues(m, signal);
  }

  // ----- runs -----------------------------------------------------------------------------

  /** Up to THREAD_MAX newly set up threads with distinct ids, none of which is the value that
      stands for a free lock. */
  ghost predicate ValidStart(created: seq<int>, threads: map<int, Thread>) {
    && NoDup(created) && |created| <= THREAD_MAX && FREE !in created
    && threads.Keys == (set id | id in created)
    && forall id :: id in threads ==>
         Ok(threads[id]) && threads[id] == NewThread(threads[id].body, threads[id].vars.arg)
  }

  lemma NewThreadIsLive(body: Body, arg: int)
    requires Ok(NewThread(body, arg))
    ensures !Exited(NewThread(body, arg)) && !Locking(NewThread(body, arg))
  {
  }

  lemma InitRunInv(created: seq<int>, threads: map<int, Thread>)
    requires ValidStart(created, threads)
    ensures RunInv(Init(created, threads))
  {
    forall id | id in threads ensures !Exited(threads[id]) && !Locking(threads[id]) {
      NewThreadIsLive(threads[id].body, threads[id].vars.arg);
    }
  }

  lemma {:induction false} RunKeepsRunInv(m: Machine, signals: seq<bool>)
    requires RunInv(m)
    ensures RunInv(Run(m, signals))
    decreases |signals|
  {
    if signals == [] {
    } else {
      StepKeepsRunInv(m, signals[0]);
      RunKeepsRunInv(Step(m, signals[0]), signals[1..]);
    }
  }

  lemma ReachableRunInv(created: seq<int>, threads: map<int, Thread>, signals: seq<bool>)
    requires ValidStart(created, threads)
    ensures RunInv(Run(Init(created, threads), signals))
  {
    InitRunInv(created, threads);
    RunKeepsRunInv(Init(created, threads), signals);
  }

  /** The queues never lose or double a thread and never overflow; the scheduler dispatches a live
      thread or returns to main, and it returns only when every thread has exited. */
  lemma QueuesAreSound(created: seq<int>, threads: map<int, Thread>, signals: seq<bool>)
    requires ValidStart(created, threads)
    ensures var m := Run(Init(created, threads), signals);
      && Distinct(m.q)
      && (forall id :: id in m.q.ready || id in m.q.waiting <==> id in m.threads && !Exited(m.threads[id]))
      && (Finished(m) ==> forall id :: id in m.threads ==> Exited(m.threads[id]))
      && (!Finished(m) ==> Runnable(m))
  {
    ReachableRunInv(created, threads, signals);
    var m := Run(Init(created, threads), signals);
    assert forall id :: id in LiveIds(m.threads) <==> id in m.threads && !Exited(m.threads[id]);
    if Finished(m) {
      forall id | id in m.threads ensures Exited(m.threads[id]) {
        assert id !in m.q.ready && id !in m.q.waiting;
      }
    } else {
      NeverEmptySlot(m);
    }
  }

  /** Mutual exclusion: of the threads that have returned from lock() and not called unlock()
      there is at most one, the one the lock names; a script's lock works like the bank's. */
  lemma MutualExclusion(created: seq<int>, threads: map<int, Thread>, signals: seq<bool>, id: int)
    requires ValidStart(created, threads) && id in Run(Init(created, threads), signals).q.ready
    ensures var m := Run(Init(created, threads), signals);
      id in m.threads && (Locking(m.threads[id]) <==> m.q.owner == id)
  {
    ReachableRunInv(created, threads, signals);
    var m := Run(Init(created, threads), signals);
    assert id in LiveIds(m.threads);
    assert id in LockingIds(m.threads) <==> m.q.owner == id;
  }

  // ----- first come, first served ---------------------------------------------------------

  ghost predicate Fcfs(m: Machine) { m.requests == m.grants + m.q.waiting }

  lemma EnterServesInOrder(q: Queues, e: Entry)
    requires Distinct(q) && q.cur < |q.ready|
    ensures Granted(q, e) + Enter(q, e).waiting == q.waiting + if e.Lock? then [q.ready[q.cur]] else []
  {
    EnterFacts(q, e);
  }

  lemma ReschedulingServesInOrder(m: Machine, e: Entry)
    requires Distinct(m.q) && m.q.cur < |m.q.ready|
    ensures var m' := Reschedule(m, e);
      m'.grants + m'.q.waiting == m.grants + m.q.waiting + if e.Lock? then [m.q.ready[m.q.cur]] else []
  {
    EnterServesInOrder(m.q, e);
    Shift(m.grants, Granted(m.q, e), Enter(m.q, e).waiting, m.q.waiting, if e.Lock? then [m.q.ready[m.q.cur]] else []);
  }

  lemma Shift(grants: seq<int>, granted: seq<int>, rest: seq<int>, waiting: seq<int>, more: seq<int>)
    requires granted + rest == waiting + more
    ensures grants + granted + rest == grants + waiting + more
  {
    assert grants + granted + rest == grants + (granted + rest);
    assert grants + waiting + more == grants + (waiting + more);
  }

  lemma StepKeepsFcfs(m: Machine, signal: bool)
    requires RunInv(m) && Fcfs(m)
    ensures Fcfs(Step(m, signal))
  {
    if Runnable(m) {
      var me := m.q.ready[m.q.cur];
      var m' := m.(threads := m.threads[me := Next(m.threads[me], m.balance)]);
      match Fetch(m.threads[me])
      case Compute =>
      case CallUnlock =>
      case CallYield => ReschedulingServesInOrder(m', Yield);
      case CallLock => ReschedulingServesInOrder(m'.(requests := m.requests + [me]), Lock);
      case CallExit => ReschedulingServesInOrder(m', Exit);
    }
  }

  lemma {:induction false} RunKeepsFcfs(m: Machine, signals: seq<bool>)
    requires RunInv(m) && Fcfs(m)
    ensures Fcfs(Run(m, signals))
    decreases |signals|
  {
    if signals == [] {
    } else {
      StepKeepsRunInv(m, signals[0]);
      StepKeepsFcfs(m, signals[0]);
      RunKeepsFcfs(Step(m, signals[0]), signals[1..]);
    }
  }

  /** The calls of lock() are granted in the order in which they were made. */
  lemma LockIsFirstComeFirstServed(created: seq<int>, threads: map<int, Thread>, signals: seq<bool>)
    requires ValidStart(created, threads)
    ensures var m := Run(Init(created, threads), signals); m.requests == m.grants + m.q.waiting
  {
    InitRunInv(created, threads);
    RunKeepsFcfs(Init(created, threads), signals);
  }

  // ----- termination ----------------------------------------------------------------------

  ghost function Total(ids: seq<int>, threads: map<int, Thread>): nat {
    if ids == [] then 0
    else (if ids[0] in threads && Ok(threads[ids[0]]) then Remaining(threads[ids[0]]) else 0) + Total(ids[1..], threads)
  }

  lemma {:induction false} TotalUpdate(ids: seq<int>, threads: map<int, Thread>, id: int, t: Thread)
    requires NoDup(ids) && id in threads && Ok(threads[id]) && Ok(t)
    ensures Total(ids, threads[id := t])
            == Total(ids, threads) + if id in ids then Remaining(t) - Remaining(threads[id]) else 0
    decreases |ids|
  {
    if ids == [] {
    } else {
      TotalUpdate(ids[1..], threads, id, t);
      if ids[0] == id {
        assert id !in ids[1..];
      }
    }
  }

  lemma StepConsumes(m: Machine, signal: bool, created: seq<int>)
    requires RunInv(m) && NoDup(created) && m.threads.Keys == (set id | id in created)
    ensures var m' := Step(m, signal);
      && m'.threads.Keys == m.threads.Keys
      && (!Finished(m) ==> Total(created, m'.threads) == Total(created, m.threads) - 1)
      && (Finished(m) ==> m' == m)
  {
    if !Finished(m) {
      NeverEmptySlot(m);
      var id := m.q.ready[m.q.cur];
      NextFacts(m.threads[id], m.balance);
      TotalUpdate(created, m.threads, id, Next(m.threads[id], m.balance));
    }
  }

  lemma {:induction false} RunConsumes(m: Machine, signals: seq<bool>, created: seq<int>)
    requires RunInv(m) && NoDup(created) && m.threads.Keys == (set id | id in created)
    requires Finished(m) || |signals| >= Total(created, m.threads)
    ensures Finished(Run(m, signals)) && Run(m, signals).threads.Keys == m.threads.Keys
    decreases |signals|
  {
    if signals == [] {
      if !Finished(m) {
        StepConsumes(m, false, created);
      }
    } else {
      StepConsumes(m, signals[0], created);
      StepKeepsRunInv(m, signals[0]);
      RunConsumes(Step(m, signals[0]), signals[1..], created);
    }
  }

  /** Whatever signals arrive, the threads need as many steps as they have instructions, and then
      all of them have exited. */
  lemma AllThreadsExit(created: seq<int>, threads: map<int, Thread>, signals: seq<bool>)
    requires ValidStart(created, threads) && |signals| >= Total(created, threads)
    ensures var m := Run(Init(created, threads), signals);
      Finished(m) && m.q.waiting == [] && forall id :: id in threads ==> id in m.threads && Exited(m.threads[id])
  {
    InitRunInv(created, threads);
    RunConsumes(Init(created, threads), signals, created);
    QueuesAreSound(created, threads, signals);
    ReachableRunInv(created, threads, signals);
  }
}
