/** What every step of the threads and their scheduler keeps. */
module ThreadInvariant {
  import opened Scheduler
  import opened Threads

  // ----- well-formed threads --------------------------------------------------------------

  /** Whether a script is between its lock and its unlock before instruction `k`. */
  predicate HoldsAt(code: seq<Instr>, k: nat)
    requires k <= |code|
  {
    k > 0 && (code[k - 1].CallLock? || (!code[k - 1].CallUnlock? && HoldsAt(code, k - 1)))
  }

  /** A script ends with its only exit, by then has released the lock, and never locks twice. */
  predicate ValidScript(code: seq<Instr>) {
    && code != [] && code[|code| - 1].CallExit? && !HoldsAt(code, |code| - 1)
    && (forall k :: 0 <= k < |code| - 1 ==> !code[k].CallExit?)
    && (forall k :: 0 <= k < |code| && code[k].CallLock? ==> !HoldsAt(code, k))
  }

  predicate Ok(t: Thread) {
    match t.body
    case Fibonacci => t.pc <= 2 && 1 <= t.vars.i <= t.vars.arg
    case Factorial => t.pc <= 2 && 1 <= t.vars.i2 <= t.vars.arg
    case BankOperation => t.pc <= 8
    case Script(code) => ValidScript(code) && t.pc <= |code|
  }

  /** The thread has called lock() and not yet unlock(). */
  predicate Locking(t: Thread) {
    match t.body
    case BankOperation => 1 <= t.pc <= 5
    case Script(code) => t.pc <= |code| && HoldsAt(code, t.pc)
    case _ => false
  }

  /** Instructions the thread has still to execute. */
  function Remaining(t: Thread): nat
    requires Ok(t)
  {
    match t.body
    case Fibonacci => if t.pc == 2 then 0 else 2 * (t.vars.arg - t.vars.i) + 2 - t.pc
    case Factorial => if t.pc == 2 then 0 else 2 * (t.vars.arg - t.vars.i2) + 2 - t.pc
    case BankOperation => 8 - t.pc
    case Script(code) => |code| - t.pc
  }

  lemma NextFacts(t: Thread, balance: int)
    requires Ok(t) && !Exited(t)
    ensures var t', c := Next(t, balance), Fetch(t);
      && Ok(t') && Remaining(t') == Remaining(t) - 1 && t'.body == t.body
      && (c.CallExit? <==> Exited(t'))
      && (c.CallLock? ==> !Locking(t) && Locking(t'))
      && (c.CallUnlock? || c.CallExit? ==> !Locking(t'))
      && (c.CallExit? ==> !Locking(t))
      && (c.Compute? || c.CallYield? ==> Locking(t') == Locking(t))
  {
  }

  // ----- the queues -----------------------------------------------------------------------

  ghost predicate NoDup(s: seq<int>) { forall i, j :: 0 <= i < j < |s| ==> s[i] != s[j] }

  ghost predicate Distinct(q: Queues) {
    && NoDup(q.ready) && NoDup(q.waiting)
    && (forall id :: id in q.ready ==> id !in q.waiting)
    && |q.ready| + |q.waiting| <= THREAD_MAX
  }

  lemma RemoveFacts(q: Queues)
    requires q.cur < |q.ready| && NoDup(q.ready)
    ensures var q' := RemoveRunning(q);
      && NoDup(q'.ready) && |q'.ready| == |q.ready| - 1
      && (q'.ready == [] || q'.cur < |q'.ready|)
      && (forall id :: id in q'.ready <==> id in q.ready && id != q.ready[q.cur])
  {
    var q' := RemoveRunning(q);
    forall id | id in q.ready && id != q.ready[q.cur] ensures id in q'.ready {
      var k :| 0 <= k < |q.ready| && q.ready[k] == id;
      assert q'.ready[if k == |q.ready| - 1 then q.cur else k] == id;
    }
  }

  lemma WakeFacts(q: Queues)
    requires Distinct(q)
    ensures var q' := WakeFirst(q);
      && Distinct(q') && q'.cur == q.cur && |q'.ready| >= |q.ready|
      && (Wakes(q) ==>
          && (forall id :: id in q'.ready <==> id in q.ready || id == q.waiting[0])
          && (forall id :: id in q'.waiting <==> id in q.waiting && id != q.waiting[0])
          && q'.owner == q.waiting[0])
  {
    if Wakes(q) {
      var w := q.waiting[0];
      assert w in q.waiting && w !in q.ready;
      assert forall k :: 0 <= k < |q.ready| ==> q.ready[k] in q.ready;
    }
  }

  /** The running thread leaves the ready queue, for the waiting queue or for good. */
  lemma LeaveFacts(q: Queues, waits: bool)
    requires Distinct(q) && q.cur < |q.ready|
    ensures var me := q.ready[q.cur];
      var q' := RemoveRunning(q).(waiting := q.waiting + if waits then [me] else []);
      && Distinct(q') && (q'.ready == [] || q'.cur < |q'.ready|)
      && (forall id :: id in q'.ready <==> id in q.ready && id != me)
      && (forall id :: id in q'.waiting <==> id in q.waiting || (waits && id == me))
  {
    RemoveFacts(q);
    var me := q.ready[q.cur];
    assert me in q.ready && me !in q.waiting;
    assert forall k :: 0 <= k < |q.waiting| ==> q.waiting[k] in q.waiting;
  }

  /** Whether lock() succeeds at once, and whether the running thread leaves the ready queue. */
  predicate Taken(q: Queues, e: Entry) { e.Lock? && q.waiting == [] && q.owner == FREE }

  predicate Leaves(q: Queues, e: Entry) { e.Exit? || (e.Lock? && !Taken(q, e)) }

  /** Nobody gets lost or doubled: the running thread leaves on exit, or waits if it does not get
      the lock; whoever is granted the lock becomes ready and owns it. */
  ghost predicate EnterEffect(q: Queues, e: Entry, q': Queues)
    requires q.cur < |q.ready|
  {
    var me, woken := q.ready[q.cur], Wakes(q);
    && Distinct(q')
    && (forall id :: id in q'.ready <==>
          (id in q.ready && !(Leaves(q, e) && id == me)) || (woken && id == q.waiting[0]))
    && (forall id :: id in q'.waiting <==>
          (id in q.waiting && !(woken && id == q.waiting[0])) || (Leaves(q, e) && e.Lock? && id == me))
    && q'.owner == (if woken then q.waiting[0] else if Taken(q, e) then me else q.owner)
    && (q'.ready == [] || q'.cur < |q'.ready|)
    && q'.waiting == (if woken then q.waiting[1..] else q.waiting) + (if Leaves(q, e) && e.Lock? then [me] else [])
  }

  lemma ExitFacts(q: Queues)
    requires Distinct(q) && q.cur < |q.ready|
    ensures EnterEffect(q, Exit, Enter(q, Exit))
  {
    var q1 := WakeFirst(q);
    WakeFacts(q);
    LeaveFacts(q1, false);
    assert q1.waiting + [] == q1.waiting;
    assert Enter(q, Exit) == RemoveRunning(q1).(waiting := q1.waiting + []);
  }

  lemma WaitFacts(q: Queues)
    requires Distinct(q) && q.cur < |q.ready| && !Taken(q, Lock)
    ensures EnterEffect(q, Lock, Enter(q, Lock))
  {
    var q1 := WakeFirst(q);
    WakeFacts(q);
    LeaveFacts(q1, true);
    assert Enter(q, Lock) == RemoveRunning(q1).(waiting := q1.waiting + [q.ready[q.cur]]);
  }

  lemma EnterFacts(q: Queues, e: Entry)
    requires Distinct(q) && q.cur < |q.ready|
    ensures EnterEffect(q, e, Enter(q, e))
  {
    if e.Exit? {
      ExitFacts(q);
    } else if Leaves(q, e) {
      WaitFacts(q);
    } else {
      WakeFacts(q);
      assert q.ready[q.cur] in q.ready;
      assert Enter(q, e).ready == WakeFirst(q).ready;
    }
  }
}
