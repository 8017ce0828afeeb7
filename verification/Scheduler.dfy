/** The user-level thread scheduler's two queues and its lock, on values and on the arrays.
    Models UserLevelThreadLibrary/scheduler.c and the queue part of threadtools.h. */
module Scheduler {
  const THREAD_MAX := 16
  const FREE := -1          // `bank.lock_owner` when nobody holds the lock

  // ----- on values ------------------------------------------------------------------------

  /** Thread ids, first slot first; `cur` is the running thread's slot. */
  datatype Queues = Queues(ready: seq<int>, waiting: seq<int>, cur: nat, owner: int)

  /** Why the scheduler is entered: a signal taken in `thread_yield`, `lock`, `thread_exit`. */
  datatype Entry = Yield | Lock | Exit

  predicate Wakes(q: Queues) { q.waiting != [] && q.owner == FREE }

  /** The first waiter becomes ready and owns the lock. */
  function WakeFirst(q: Queues): Queues {
    if !Wakes(q) then q
    else q.(ready := q.ready + [q.waiting[0]], waiting := q.waiting[1..], owner := q.waiting[0])
  }

  /** The last ready thread fills the running thread's slot and runs next; if that slot is the
      last one, the first thread runs next. */
  function RemoveRunning(q: Queues): Queues
    requires q.cur < |q.ready|
  {
    var last := |q.ready| - 1;
    if q.cur == last then q.(ready := q.ready[..last], cur := 0)
    else q.(ready := q.ready[..last][q.cur := q.ready[last]])
  }

  function Enter(q: Queues, e: Entry): Queues
    requires q.cur < |q.ready|
  {
    var q1 := WakeFirst(q);
    match e
    case Yield => q1.(cur := (q.cur + 1) % |q1.ready|)
    case Exit => RemoveRunning(q1)
    case Lock =>
      if q.waiting == [] && q.owner == FREE then q.(owner := q.ready[q.cur])
      else
        var q2 := RemoveRunning(q1);
        q2.(waiting := q2.waiting + [q.ready[q.cur]])
  }

  /** What an entry does, told slot by slot. Who is removed leaves its slot to the thread just woken or
      else to the last ready one, which runs next; from the last slot the circle goes on at the first.
      A yield goes on to the next slot, where a thread just woken is the last. */
  predicate Dispatches(q: Queues, e: Entry, q': Queues)
    requires q.cur < |q.ready|
  {
    var me, n := q.ready[q.cur], |q.ready|;
    var woken := q.waiting != [] && q.owner == FREE;
    var taken := e.Lock? && q.waiting == [] && q.owner == FREE;
    && q'.owner == (if woken then q.waiting[0] else if taken then me else q.owner)
    && q'.waiting == (if woken then q.waiting[1..] else q.waiting) + (if e.Lock? && !taken then [me] else [])
    && if e.Exit? || (e.Lock? && !taken) then
         if woken then q'.ready == q.ready[q.cur := q.waiting[0]] && q'.cur == q.cur
         else if q.cur == n - 1 then q'.ready == q.ready[..n - 1] && q'.cur == 0
         else q'.ready == q.ready[q.cur := q.ready[n - 1]][..n - 1] && q'.cur == q.cur
       else
         && q'.ready == (if woken then q.ready + [q.waiting[0]] else q.ready)
         && q'.cur == (if taken then q.cur else if q.cur + 1 < |q'.ready| then q.cur + 1 else 0)
  }

  lemma DispatchesYield(q: Queues)
    requires q.cur < |q.ready|
    ensures Dispatches(q, Yield, Enter(q, Yield))
  {
    var q1 := WakeFirst(q);
    if q.cur + 1 < |q1.ready| {
      assert (q.cur + 1) % |q1.ready| == q.cur + 1;
    } else {
      assert (q.cur + 1) % |q1.ready| == 0;
    }
  }

  lemma DispatchesRemoval(q: Queues, e: Entry)
    requires q.cur < |q.ready| && !e.Yield?
    ensures Dispatches(q, e, Enter(q, e))
  {
    var q1, n := WakeFirst(q), |q.ready|;
    if Wakes(q) {
      assert q1.ready[..n] == q.ready;
    }
  }

  /** Who runs next, for every entry in every state of the queues. */
  lemma WhoRunsNext(q: Queues, e: Entry)
    requires q.cur < |q.ready|
    ensures Dispatches(q, e, Enter(q, e))
    ensures var q', n, woken := Enter(q, e), |q.ready|, q.waiting != [] && q.owner == FREE;
      var taken := e.Lock? && q.waiting == [] && q.owner == FREE;
      q'.ready != [] ==>
        && q'.cur < |q'.ready|
        && q'.ready[q'.cur] == (
             if taken then q.ready[q.cur]
             else if e.Yield? then
               if q.cur + 1 < n then q.ready[q.cur + 1] else if woken then q.waiting[0] else q.ready[0]
             else if woken then q.waiting[0]
             else if q.cur + 1 < n then q.ready[n - 1]
             else q.ready[0])
  {
    if e.Yield? {
      DispatchesYield(q);
    } else {
      DispatchesRemoval(q, e);
    }
  }

  // ----- on the arrays --------------------------------------------------------------------

  /** A thread control block; the loop variables belong to the thread functions. */
  class Tcb {
    const id: int
    const arg: int
    var i: int
    var x: int
    var y: int
    var i2: int
    var z: int

    constructor (id: int, arg: int)
      ensures this.id == id && this.arg == arg && i == x == y == i2 == z == 1
    {
      this.id, this.arg := id, arg;
      i, i2, x, y, z := 1, 1, 1, 1, 1;
    }
  }

  ghost function Ids(slots: seq<Tcb?>): (ids: seq<int>)
    requires forall k :: 0 <= k < |slots| ==> slots[k] != null
    ensures |ids| == |slots| && forall k :: 0 <= k < |ids| ==> ids[k] == slots[k].id
  {
    seq(|slots|, k requires 0 <= k < |slots| => slots[k].id)
  }

  /** The used slots are filled, with the control blocks of their threads, and the others empty. */
  ghost predicate Packed(slots: seq<Tcb?>, size: nat, blocks: map<int, Tcb>) {
    && size <= |slots| == THREAD_MAX
    && (forall k :: 0 <= k < size ==> IsBlock(slots[k], blocks))
    && (forall k :: size <= k < THREAD_MAX ==> slots[k] == null)
  }

  ghost predicate IsBlock(t: Tcb?, blocks: map<int, Tcb>) { t != null && t.id in blocks && blocks[t.id] == t }

  class ThreadTable {
    const ready_queue: array<Tcb?>
    const waiting_queue: array<Tcb?>
    var rq_size: nat
    var wq_size: nat
    var rq_current: nat
    var lock_owner: int
    ghost var blocks: map<int, Tcb>   // the control blocks of all threads ever set up, by id

    ghost predicate Valid()
      reads this, ready_queue, waiting_queue
    {
      && ready_queue != waiting_queue
      && Packed(ready_queue[..], rq_size, blocks) && Packed(waiting_queue[..], wq_size, blocks)
      && forall id :: id in blocks ==> blocks[id].id == id
    }

    ghost function Value(): Queues
      requires Valid()
      reads this, ready_queue, waiting_queue
    {
      Queues(Ids(ready_queue[..rq_size]), Ids(waiting_queue[..wq_size]), rq_current, lock_owner)
    }

    constructor ()
      ensures Valid() && Value() == Queues([], [], 0, FREE)
      ensures fresh(ready_queue) && fresh(waiting_queue) && blocks == map[]
    {
      var rq := new Tcb?[THREAD_MAX](_ => null);
      var wq := new Tcb?[THREAD_MAX](_ => null);
      ready_queue, waiting_queue := rq, wq;
      rq_size, wq_size, rq_current := 0, 0, 0;
      lock_owner := FREE;
      blocks := map[];
    }

    /** `thread_setup`; no two threads share an id. */
    method Setup(id: int, arg: int) returns (tcb: Tcb)
      requires Valid() && rq_size < THREAD_MAX && id !in blocks
      modifies this`rq_size, this`blocks, ready_queue
      ensures Valid() && fresh(tcb) && tcb.id == id && tcb.arg == arg && blocks == old(blocks)[id := tcb]
      ensures tcb.i == tcb.i2 == tcb.x == tcb.y == tcb.z == 1
      ensures Value() == old(Value()).(ready := old(Value()).ready + [id])
    {
      tcb := new Tcb(id, arg);
      ready_queue[rq_size] := tcb;
      rq_size := rq_size + 1;
      blocks := blocks[id := tcb];
    }

    /** `unlock` */
    method Unlock()
      requires Valid() && rq_current < rq_size
      modifies this`lock_owner
      ensures Valid()
      ensures var q := old(Value());
        Value() == if q.ready[q.cur] == q.owner then q.(owner := FREE) else q
    {
      if ready_queue[rq_current].id == lock_owner {
        lock_owner := FREE;
      }
    }

    /** The waiters move up by one slot. */
    method ShiftWaiting()
      requires waiting_queue.Length == THREAD_MAX && wq_size < THREAD_MAX
      modifies waiting_queue
      ensures forall k :: 0 <= k < wq_size ==> waiting_queue[k] == old(waiting_queue[k + 1])
      ensures forall k :: wq_size <= k < THREAD_MAX ==> waiting_queue[k] == old(waiting_queue[k])
    {
      for i := 0 to wq_size
        invariant forall k :: 0 <= k < i ==> waiting_queue[k] == old(waiting_queue[k + 1])
        invariant forall k :: i <= k < THREAD_MAX ==> waiting_queue[k] == old(waiting_queue[k])
      {
        waiting_queue[i] := waiting_queue[i + 1];
      }
    }

    /** Priority 1: bring the first waiter to the ready queue and close the gap it leaves. */
    method WakeFirstWaiter()
      requires Valid() && wq_size > 0 && rq_size > 0 && rq_size + wq_size <= THREAD_MAX && lock_owner == FREE
      modifies this`rq_size, this`wq_size, this`lock_owner, ready_queue, waiting_queue
      ensures Valid() && Value() == WakeFirst(old(Value()))
    {
      var next_thread := waiting_queue[0];
      ready_queue[rq_size] := next_thread;
      rq_size := rq_size + 1;
      ShiftWaiting();
      waiting_queue[wq_size] := null;
      wq_size := wq_size - 1;
      lock_owner := ready_queue[rq_size - 1].id;
    }

    /** The last ready thread moves into the running thread's slot. */
    method FillHole()
      requires Valid() && rq_current < rq_size - 1
      modifies this`rq_size, ready_queue
      ensures Valid() && Value() == RemoveRunning(old(Value()))
    {
      ready_queue[rq_current] := null;
      var last_thread := ready_queue[rq_size - 1];
      ready_queue[rq_current] := last_thread;
      ready_queue[rq_size - 1] := null;
      rq_size := rq_size - 1;
    }

    method RemoveCurrent()
      requires Valid() && rq_current < rq_size
      modifies this`rq_size, this`rq_current, ready_queue
      ensures Valid() && Value() == RemoveRunning(old(Value()))
    {
      if rq_current != rq_size - 1 {
        FillHole();
      } else {
        ready_queue[rq_current] := null;
        rq_size := rq_size - 1;
        rq_current := 0;
      }
    }

    /** The running thread goes to the end of the waiting queue. */
    method SuspendRunning()
      requires Valid() && rq_current < rq_size && wq_size < THREAD_MAX
      modifies this`rq_size, this`wq_size, this`rq_current, ready_queue, waiting_queue
      ensures Valid()
      ensures var q := old(Value());
        Value() == RemoveRunning(q).(waiting := q.waiting + [q.ready[q.cur]])
    {
      var nolock_thread := ready_queue[rq_current];
      waiting_queue[wq_size] := nolock_thread;
      wq_size := wq_size + 1;
      RemoveCurrent();
    }

    /** The next ready thread in the circle runs. */
    method Advance()
      requires Valid() && rq_size > 0
      modifies this`rq_current
      ensures Valid()
      ensures var q := old(Value()); Value() == q.(cur := (q.cur + 1) % |q.ready|)
    {
      rq_current := (rq_current + 1) % rq_size;
    }

    /** Threads wait and the lock is free. */
    method ScheduleHandover(see: Entry)
      requires Valid() && rq_current < rq_size && rq_size + wq_size <= THREAD_MAX
      requires wq_size > 0 && lock_owner == FREE
      modifies this`rq_size, this`wq_size, this`rq_current, this`lock_owner, ready_queue, waiting_queue
      ensures Valid() && Value() == Enter(old(Value()), see) && Dispatches(old(Value()), see, Value())
    {
      WhoRunsNext(Value(), see);
      WakeFirstWaiter();
      match see
      case Exit => FillHole();
      case Lock => SuspendRunning();
      case Yield => Advance();
    }

    /** Threads wait and the lock is held. */
    method ScheduleHeld(see: Entry)
      requires Valid() && rq_current < rq_size && rq_size + wq_size <= THREAD_MAX
      requires wq_size > 0 && lock_owner != FREE
      modifies this`rq_size, this`wq_size, this`rq_current, ready_queue, waiting_queue
      ensures Valid() && Value() == Enter(old(Value()), see) && Dispatches(old(Value()), see, Value())
    {
      WhoRunsNext(Value(), see);
      match see
      case Exit => RemoveCurrent();
      case Lock => SuspendRunning();
      case Yield => Advance();
    }

    /** Nobody waits. */
    method ScheduleNoWaiters(see: Entry)
      requires Valid() && rq_current < rq_size && wq_size == 0
      modifies this`rq_size, this`wq_size, this`rq_current, this`lock_owner, ready_queue, waiting_queue
      ensures Valid() && Value() == Enter(old(Value()), see) && Dispatches(old(Value()), see, Value())
    {
      WhoRunsNext(Value(), see);
      match see
      case Exit => RemoveCurrent();
      case Lock =>
        if lock_owner == FREE {
          lock_owner := ready_queue[rq_current].id;
        } else {
          SuspendRunning();
        }
      case Yield => Advance();
    }

    /** `scheduler`, called from main: the thread set up first runs. */
    method Start() returns (running: Tcb?)
      requires Valid() && wq_size == 0
      modifies this`rq_current
      ensures Valid() && Value() == old(Value()).(cur := 0)
      ensures rq_size > 0 ==> running != null && running.id == Value().ready[0]
      ensures rq_size == 0 ==> running == null
    {
      rq_current := 0;
      if rq_size == 0 && wq_size == 0 {
        return null;
      } else {
        return ready_queue[rq_current];
      }
    }

    /** All that an entry does to the queues and the lock. */
    method Requeue(see: Entry)
      requires Valid() && rq_current < rq_size && rq_size + wq_size <= THREAD_MAX
      modifies this`rq_size, this`wq_size, this`rq_current, this`lock_owner, ready_queue, waiting_queue
      ensures Valid() && Value() == Enter(old(Value()), see)
    {
      if wq_size > 0 {
        if lock_owner == FREE {
          ScheduleHandover(see);
        } else {
          ScheduleHeld(see);
        }
      } else {
        ScheduleNoWaiters(see);
      }
    }

    /** `scheduler`, entered from a thread. Returns the thread to run next, or none when control
        goes back to main. */
    method Schedule(see: Entry) returns (running: Tcb?)
      requires Valid() && rq_current < rq_size && rq_size + wq_size <= THREAD_MAX
      modifies this`rq_size, this`wq_size, this`rq_current, this`lock_owner, ready_queue, waiting_queue
      ensures Valid() && Value() == Enter(old(Value()), see)
      ensures rq_current < rq_size ==> running != null && running.id == Value().ready[rq_current]
      ensures rq_size == 0 ==> running == null
    {
      Requeue(see);
      if rq_size == 0 && wq_size == 0 {
        return null;
      } else {
        return ready_queue[rq_current];
      }
    }
  }
}
