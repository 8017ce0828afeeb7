/** The thread pool's shared state and its critical sections, on values and on the heap.
    Models MultiThread/my_pool.c; a job is its function and argument. */
module Pool {
  datatype Work = Work(fn: int, arg: int)

  // ----- critical sections on values ------------------------------------------------------

  /** Everything the mutex protects. */
  datatype Core = Core(queue: seq<Work>, jc: int, tc: int, shutdown: bool)

  /** What a worker holding the mutex does next. */
  datatype Turn = Sleep | Leave | Execute(job: Work)

  /** `eachthread` from the test of its wait loop to its first unlock, or to its end. */
  function WorkerTurn(p: Core): Turn {
    if p.shutdown then Leave else if p.queue == [] then Sleep else Execute(p.queue[0])
  }

  function AfterTurn(p: Core): Core {
    match WorkerTurn(p)
    case Sleep => p
    case Leave => p.(tc := p.tc - 1)
    case Execute(_) => p.(queue := p.queue[1..], jc := p.jc + 1)
  }

  /** `eachthread`'s second critical section: the job is freed and no longer in flight. */
  function AfterFinish(p: Core): Core { p.(jc := p.jc - 1) }

  /** Nothing queued and nothing in flight. */
  predicate Drained(p: Core) { p.jc == 0 && p.queue == [] }

  function AfterAdd(p: Core, job: Work): Core { p.(queue := p.queue + [job]) }

  // ----- the same on the heap -------------------------------------------------------------

  class Job {
    const work: Work
    var next: Job?

    constructor (work: Work)
      ensures this.work == work && next == null
    {
      this.work := work;
      this.next := null;
    }
  }

  function Works(nodes: seq<Job>): seq<Work> { seq(|nodes|, i requires 0 <= i < |nodes| => nodes[i].work) }

  /** `head` starts a chain without cycles whose last node is `tail`; both are NULL when the list
      is empty. */
  ghost predicate IsList(nodes: seq<Job>, head: Job?, tail: Job?)
    reads nodes
  {
    && (nodes == [] ==> head == null && tail == null)
    && (nodes != [] ==> head == nodes[0] && tail == nodes[|nodes| - 1] && tail.next == null)
    && (forall i :: 0 <= i < |nodes| - 1 ==> nodes[i].next == nodes[i + 1])
    && (forall i, j :: 0 <= i < j < |nodes| ==> nodes[i] != nodes[j])
  }

  lemma ListTail(nodes: seq<Job>, head: Job?, tail: Job?)
    requires IsList(nodes, head, tail) && nodes != []
    ensures nodes[0].next == null <==> |nodes| == 1
    ensures |nodes| > 1 ==> IsList(nodes[1..], nodes[0].next, tail)
  {
    if |nodes| > 1 {
      assert nodes[0].next == nodes[0 + 1];
    }
  }

  class ThreadPool {
    var jc: int
    var tc: int
    var shutdown: int
    var head: Job?
    var tail: Job?
    ghost var nodes: seq<Job>   // the linked list, first job first

    ghost predicate Valid()
      reads this, nodes
    {
      (shutdown == 0 || shutdown == 1) && IsList(nodes, head, tail)
    }

    ghost function Value(): Core
      reads this, nodes
    {
      Core(Works(nodes), jc, tc, shutdown == 1)
    }

    /** `tpool_init` */
    constructor (n_threads: int)
      ensures Valid() && Value() == Core([], 0, n_threads, false)
    {
      tc, jc, shutdown := n_threads, 0, 0;
      head, tail := null, null;
      nodes := [];
    }

    /** The first job leaves the list. */
    method Dequeue() returns (job1: Job)
      requires Valid() && nodes != []
      modifies this`head, this`tail, this`nodes
      ensures Valid() && job1 == old(nodes)[0] && nodes == old(nodes)[1..]
    {
      job1 := head;
      ListTail(nodes, head, tail);
      if job1.next == null {
        head := null;
        tail := null;
      } else {
        head := job1.next;
      }
      nodes := nodes[1..];
    }

    /** The worker's first critical section after its wait loop has been left or found it has to
        wait. The job itself runs before the mutex is released. */
    method TakeTurn() returns (turn: Turn, job1: Job?)
      requires Valid()
      modifies this
      ensures Valid()
      ensures turn == WorkerTurn(old(Value())) && Value() == AfterTurn(old(Value()))
      ensures old(shutdown) == 1 ==> turn == Leave && tc == old(tc) - 1 && jc == old(jc) && nodes == old(nodes)
      ensures old(shutdown) == 0 && old(nodes) == [] ==> turn == Sleep && tc == old(tc) && jc == old(jc) && nodes == []
      ensures old(shutdown) == 0 && old(nodes) != [] ==>
        turn == Execute(old(nodes)[0].work) && tc == old(tc) && jc == old(jc) + 1
      ensures shutdown == old(shutdown)
      ensures turn.Execute? <==> job1 != null
      ensures job1 != null ==> job1 == old(nodes)[0] && nodes == old(nodes)[1..]
    {
      job1 := null;
      if shutdown == 0 && head == null {
        return Sleep, null;
      }
      if shutdown == 1 {
        tc := tc - 1;
        return Leave, null;
      }
      job1 := Dequeue();
      jc := jc + 1;
      turn := Execute(job1.work);
    }

    /** The worker's second critical section. */
    method Finish() returns (signalB: bool)
      requires Valid()
      modifies this
      ensures Valid()
      ensures Value() == AfterFinish(old(Value())) && signalB == Drained(Value())
      ensures nodes == old(nodes)
    {
      jc := jc - 1;
      var con1 := jc == 0;
      var con2 := head == null;
      signalB := con1 && con2;
    }

    /** `tpool_add` */
    method Add(work: Work)
      requires Valid()
      modifies this, tail
      ensures Valid()
      ensures Value() == AfterAdd(old(Value()), work)
      ensures |nodes| == |old(nodes)| + 1 && nodes[..|old(nodes)|] == old(nodes) && fresh(nodes[|old(nodes)|])
    {
      var job1 := new Job(work);
      if head != null {
        tail.next := job1;
        tail := job1;
      } else {
        head := job1;
        tail := job1;
      }
      nodes := nodes + [job1];
    }

    /** The test of `tpool_wait`. */
    method MustWait() returns (wait: bool)
      requires Valid()
      ensures wait == !Drained(Value())
    {
      var con3 := jc == 0;
      var con4 := head == null;
      wait := !con4 || !con3;
    }

    /** The first part of `wait2`. */
    method BeginShutdown()
      requires Valid()
      modifies this`shutdown
      ensures Valid()
      ensures Value() == old(Value()).(shutdown := true) && nodes == old(nodes)
    {
      shutdown := 1;
    }
  }
}
