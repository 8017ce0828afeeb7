/** Workers and one controlling thread running on the pool in every interleaving of their
    critical sections, with spurious wakeups. Models MultiThread/my_pool.c. */
module PoolMachine {
  import opened Pool

  /** A worker about to lock or just woken; asleep on Acond; between its two critical sections
      with a job it has executed and not yet freed; past its last access to the pool. */
  datatype Worker = Start | Asleep | Holding(job: Work) | Gone

  datatype Call = Add(job: Work) | Wait | Destroy

  /** The controlling thread: between calls; in the loop of `tpool_wait`, awake or asleep on
      Bcond; in the loop of `wait2`, awake or asleep on Ccond; after `tpool_destroy`. */
  datatype Controller = Ready | Waiting | AsleepB | Stopping | AsleepC | Destroyed

  datatype State = State(
    core: Core, workers: seq<Worker>, ctl: Controller,
    calls: seq<Call>,              // still to be made
    added: seq<Work>, executed: seq<Work>, freed: multiset<Work>)

  /** The controlling thread adds and waits at will; nothing follows the destruction. */
  predicate ValidCalls(calls: seq<Call>) { forall i :: 0 <= i < |calls| - 1 ==> !calls[i].Destroy? }

  function Init(n: nat, calls: seq<Call>): State {
    State(Core([], 0, n, false), seq(n, i => Start), Ready, calls, [], [], multiset{})
  }

  // ----- steps ----------------------------------------------------------------------------

  /** `pthread_cond_broadcast(Acond)` */
  function WakeAll(ws: seq<Worker>): (r: seq<Worker>)
    ensures |r| == |ws|
  {
    seq(|ws|, i requires 0 <= i < |ws| => if ws[i].Asleep? then Start else ws[i])
  }

  /** `pthread_cond_signal(Bcond)` and `pthread_cond_signal(Ccond)` */
  function SignalB(c: Controller): Controller { if c.AsleepB? then Waiting else c }

  function SignalC(c: Controller): Controller { if c.AsleepC? then Stopping else c }

  function StepWorker(s: State, i: nat): State
    requires i < |s.workers|
  {
    match s.workers[i]
    case Start =>
      var s' := s.(core := AfterTurn(s.core));
      (match WorkerTurn(s.core)
       case Sleep => s'.(workers := s.workers[i := Asleep])
       case Leave => s'.(workers := s.workers[i := Gone], ctl := SignalC(s.ctl))
       case Execute(job) => s'.(workers := s.workers[i := Holding(job)], executed := s.executed + [job]))
    case Holding(job) =>
      var core := AfterFinish(s.core);
      s.(core := core, workers := s.workers[i := Start], freed := s.freed + multiset{job},
         ctl := if Drained(core) then SignalB(s.ctl) else s.ctl)
    case Asleep => s
    case Gone => s
  }

  function StepController(s: State): State {
    match s.ctl
    case Ready =>
      if s.calls == [] then s
      else
        var s' := s.(calls := s.calls[1..]);
        (match s.calls[0]
         case Add(job) => s'.(core := AfterAdd(s.core, job), added := s.added + [job], workers := WakeAll(s.workers))
         case Wait => s'.(ctl := Waiting)
         case Destroy => s'.(core := s.core.(shutdown := true), workers := WakeAll(s.workers), ctl := Stopping))
    case Waiting => s.(ctl := if Drained(s.core) then Ready else AsleepB)
    case Stopping => s.(ctl := if s.core.tc != 0 then AsleepC else Destroyed)
    case AsleepB => s
    case AsleepC => s
    case Destroyed => s
  }

  /** A condition wait may return without a signal. */
  datatype Event = WorkerRuns(i: nat) | ControlRuns | WorkerWakes(i: nat) | ControlWakes

  function Step(s: State, e: Event): State {
    match e
    case WorkerRuns(i) => if i < |s.workers| then StepWorker(s, i) else s
    case ControlRuns => StepController(s)
    case WorkerWakes(i) =>
      if i < |s.workers| && s.workers[i].Asleep? then s.(workers := s.workers[i := Start]) else s
    case ControlWakes => s.(ctl := SignalB(SignalC(s.ctl)))
  }

  function Run(s: State, events: seq<Event>): State
    decreases |events|
  {
    if events == [] then s else Run(Step(s, events[0]), events[1..])
  }

  // ----- invariant ------------------------------------------------------------------------

  /** Workers between dequeue and completion. */
  ghost function InFlight(ws: seq<Worker>): nat {
    if ws == [] then 0 else (if ws[0].Holding? then 1 else 0) + InFlight(ws[1..])
  }

  /** Workers not yet past their decrement of `tc`. */
  ghost function Live(ws: seq<Worker>): nat {
    if ws == [] then 0 else (if ws[0].Gone? then 0 else 1) + Live(ws[1..])
  }

  /** How many workers hold this job, executed and not yet freed. */
  ghost function HeldBy(w: Worker, job: Work): nat { if w.Holding? && w.job == job then 1 else 0 }

  ghost function Held(ws: seq<Worker>, job: Work): nat {
    if ws == [] then 0 else HeldBy(ws[0], job) + Held(ws[1..], job)
  }

  /** Every execution of a job is either held by its worker or has been freed, once. */
  ghost predicate FreedJob(s: State, job: Work) {
    s.freed[job] + Held(s.workers, job) == multiset(s.executed)[job]
  }

  ghost predicate FreedInv(s: State) { forall job :: FreedJob(s, job) }

  ghost predicate Inv(s: State) {
    && ValidCalls(s.calls)
    && s.core.jc == InFlight(s.workers) && s.core.tc == Live(s.workers)
    && s.added == s.executed + s.core.queue
    && (s.core.shutdown <==> s.ctl.Stopping? || s.ctl.AsleepC? || s.ctl.Destroyed?)
    && (s.core.shutdown ==> s.calls == [])
    // no lost wakeup
    && (forall i :: 0 <= i < |s.workers| && s.workers[i].Asleep? ==> s.core.queue == [] && !s.core.shutdown)
    && (s.ctl.AsleepB? ==> !Drained(s.core))
    && (s.ctl.AsleepC? ==> s.core.tc != 0)
    && (forall i :: 0 <= i < |s.workers| && s.workers[i].Gone? ==> s.core.shutdown)
    && (s.ctl.Destroyed? ==> s.core.tc == 0)
  }

  // ----- counting -------------------------------------------------------------------------

  lemma {:induction false} CountsUpdate(ws: seq<Worker>, i: nat, w: Worker)
    requires i < |ws|
    ensures InFlight(ws[i := w]) == InFlight(ws) + (if w.Holding? then 1 else 0) - (if ws[i].Holding? then 1 else 0)
    ensures Live(ws[i := w]) == Live(ws) + (if w.Gone? then 0 else 1) - (if ws[i].Gone? then 0 else 1)
    decreases i
  {
    if i == 0 {
      assert ws[i := w][1..] == ws[1..];
    } else {
      assert ws[i := w][1..] == ws[1..][i - 1 := w];
      CountsUpdate(ws[1..], i - 1, w);
    }
  }

  lemma {:induction false} HeldUpdate(ws: seq<Worker>, i: nat, w: Worker, job: Work)
    requires i < |ws|
    ensures Held(ws[i := w], job) == Held(ws, job) + HeldBy(w, job) - HeldBy(ws[i], job)
    decreases i
  {
    if i == 0 {
      assert ws[i := w][1..] == ws[1..];
    } else {
      assert ws[i := w][1..] == ws[1..][i - 1 := w];
      HeldUpdate(ws[1..], i - 1, w, job);
    }
  }

  lemma {:induction false} CountsWakeAll(ws: seq<Worker>)
    ensures InFlight(WakeAll(ws)) == InFlight(ws) && Live(WakeAll(ws)) == Live(ws)
  {
    if ws == [] {
    } else {
      assert WakeAll(ws)[1..] == WakeAll(ws[1..]);
      CountsWakeAll(ws[1..]);
    }
  }

  lemma {:induction false} HeldWakeAll(ws: seq<Worker>, job: Work)
    ensures Held(WakeAll(ws), job) == Held(ws, job)
  {
    if ws == [] {
    } else {
      assert WakeAll(ws)[1..] == WakeAll(ws[1..]);
      HeldWakeAll(ws[1..], job);
    }
  }

  lemma {:induction false} CountsInit(n: nat)
    ensures InFlight(seq(n, i => Start)) == 0 && Live(seq(n, i => Start)) == n
  {
    if n == 0 {
    } else {
      assert seq(n, i => Start)[1..] == seq(n - 1, i => Start);
      CountsInit(n - 1);
    }
  }

  lemma {:induction false} NoneLive(ws: seq<Worker>, i: nat)
    requires i < |ws|
    ensures Live(ws) == 0 ==> ws[i].Gone?
    ensures InFlight(ws) == 0 ==> !ws[i].Holding?
    decreases i
  {
    if i == 0 {
    } else {
      NoneLive(ws[1..], i - 1);
    }
  }

  lemma {:induction false} NoneHeld(ws: seq<Worker>, job: Work)
    requires InFlight(ws) == 0
    ensures Held(ws, job) == 0
  {
    if ws == [] {
    } else {
      NoneHeld(ws[1..], job);
    }
  }

  // ----- every step keeps the invariant ---------------------------------------------------

  lemma InitInv(n: nat, calls: seq<Call>)
    requires ValidCalls(calls)
    ensures Inv(Init(n, calls))
  {
    CountsInit(n);
  }

  lemma WorkerKeepsInv(s: State, i: nat)
    requires Inv(s) && i < |s.workers|
    ensures Inv(StepWorker(s, i))
  {
    var s' := StepWorker(s, i);
    CountsUpdate(s.workers, i, s'.workers[i]);
  }

  lemma StartKeepsFreedJob(s: State, i: nat, w: Worker, more: seq<Work>, job: Work)
    requires FreedJob(s, job) && i < |s.workers| && !s.workers[i].Holding?
    requires if w.Holding? then more == [w.job] else more == []
    ensures s.freed[job] + Held(s.workers[i := w], job) == multiset(s.executed + more)[job]
  {
    HeldUpdate(s.workers, i, w, job);
    if w.Holding? {
      CountMore(s.executed, w.job, job);
    } else {
      assert s.executed + more == s.executed;
    }
  }

  lemma FinishKeepsFreedJob(s: State, i: nat, job: Work)
    requires FreedJob(s, job) && i < |s.workers| && s.workers[i].Holding?
    ensures (s.freed + multiset{s.workers[i].job})[job] + Held(s.workers[i := Start], job) == multiset(s.executed)[job]
  {
    HeldUpdate(s.workers, i, Start, job);
  }

  lemma WorkerKeepsFreedJob(s: State, i: nat, job: Work)
    requires FreedJob(s, job) && i < |s.workers|
    ensures FreedJob(StepWorker(s, i), job)
  {
    var w := StepWorker(s, i).workers[i];
    match s.workers[i]
    case Start => StartKeepsFreedJob(s, i, w, if w.Holding? then [w.job] else [], job);
    case Holding(_) => FinishKeepsFreedJob(s, i, job);
    case Asleep =>
    case Gone =>
  }

  lemma CountMore(executed: seq<Work>, done: Work, job: Work)
    ensures multiset(executed + [done])[job] == multiset(executed)[job] + if done == job then 1 else 0
  {
  }

  lemma WorkerKeepsFreed(s: State, i: nat)
    requires FreedInv(s) && i < |s.workers|
    ensures FreedInv(StepWorker(s, i))
  {
    forall job ensures FreedJob(StepWorker(s, i), job) {
      assert FreedJob(s, job);
      WorkerKeepsFreedJob(s, i, job);
    }
  }

  lemma ControllerKeepsInv(s: State)
    requires Inv(s)
    ensures Inv(StepController(s))
  {
    CountsWakeAll(s.workers);
  }

  lemma StepKeepsInv(s: State, e: Event)
    requires Inv(s)
    ensures Inv(Step(s, e))
  {
    match e
    case WorkerRuns(i) => if i < |s.workers| { WorkerKeepsInv(s, i); }
    case ControlRuns => ControllerKeepsInv(s);
    case WorkerWakes(i) => if i < |s.workers| { CountsUpdate(s.workers, i, Start); }
    case ControlWakes =>
  }

  lemma StepKeepsFreed(s: State, e: Event)
    requires FreedInv(s)
    ensures FreedInv(Step(s, e))
  {
    match e
    case WorkerRuns(i) => if i < |s.workers| { WorkerKeepsFreed(s, i); }
    case ControlRuns =>
      var s' := StepController(s);
      forall job ensures FreedJob(s', job) {
        assert FreedJob(s, job);
        HeldWakeAll(s.workers, job);
      }
    case WorkerWakes(i) =>
      var s' := Step(s, e);
      forall job ensures FreedJob(s', job) {
        assert FreedJob(s, job);
        if i < |s.workers| { HeldUpdate(s.workers, i, Start, job); }
      }
    case ControlWakes =>
      forall job ensures FreedJob(Step(s, e), job) {
        assert FreedJob(s, job);
      }
  }

  lemma {:induction false} RunKeepsInv(s: State, events: seq<Event>)
    requires Inv(s) && FreedInv(s)
    ensures Inv(Run(s, events)) && FreedInv(Run(s, events)) && |Run(s, events).workers| == |s.workers|
    decreases |events|
  {
    if events == [] {
    } else {
      StepKeepsInv(s, events[0]);
      StepKeepsFreed(s, events[0]);
      RunKeepsInv(Step(s, events[0]), events[1..]);
    }
  }

  lemma {:induction false} HeldInit(n: nat, job: Work)
    ensures Held(seq(n, i => Start), job) == 0
  {
    if n == 0 {
    } else {
      assert seq(n, i => Start)[1..] == seq(n - 1, i => Start);
      HeldInit(n - 1, job);
    }
  }

  lemma ReachableInv(n: nat, calls: seq<Call>, events: seq<Event>)
    requires ValidCalls(calls)
    ensures var s := Run(Init(n, calls), events); Inv(s) && FreedInv(s) && |s.workers| == n
  {
    InitInv(n, calls);
    forall job ensures Held(Init(n, calls).workers, job) == 0 {
      HeldInit(n, job);
    }
    RunKeepsInv(Init(n, calls), events);
  }

  // ----- what the pool guarantees ---------------------------------------------------------

  /** Jobs run exactly once and in the order they were added, whatever the interleaving. */
  lemma JobsRunInOrder(n: nat, calls: seq<Call>, events: seq<Event>)
    requires ValidCalls(calls)
    ensures var s := Run(Init(n, calls), events); s.added == s.executed + s.core.queue
  {
    ReachableInv(n, calls, events);
  }

  /** `jc` and `tc` mean what their names say; nobody sleeps through what it waits for. */
  lemma NoLostWakeup(n: nat, calls: seq<Call>, events: seq<Event>)
    requires ValidCalls(calls)
    ensures var s := Run(Init(n, calls), events);
      && s.core.jc == InFlight(s.workers) && s.core.tc == Live(s.workers)
      && (forall i :: 0 <= i < |s.workers| && s.workers[i].Asleep? ==> s.core.queue == [] && !s.core.shutdown)
      && (s.ctl.AsleepB? ==> s.core.jc != 0 || s.core.queue != [])
      && (s.ctl.AsleepC? ==> s.core.tc != 0)
  {
    ReachableInv(n, calls, events);
  }

  /** `tpool_wait` returns only when every added job has been executed and freed. */
  lemma WaitReturns(n: nat, calls: seq<Call>, events: seq<Event>)
    requires ValidCalls(calls)
    requires var s := Run(Init(n, calls), events); s.ctl.Waiting? && StepController(s).ctl.Ready?
    ensures var s := Run(Init(n, calls), events);
      && s.executed == s.added && s.freed == multiset(s.added)
      && forall i :: 0 <= i < |s.workers| ==> !s.workers[i].Holding?
  {
    ReachableInv(n, calls, events);
    var s := Run(Init(n, calls), events);
    forall i | 0 <= i < n ensures !s.workers[i].Holding? {
      NoneLive(s.workers, i);
    }
    forall job ensures s.freed[job] == multiset(s.added)[job] {
      assert FreedJob(s, job);
      NoneHeld(s.workers, job);
    }
  }

  /** Whom a worker's step wakes: the caller of `tpool_wait` if and only if nothing is queued or in flight
      any more, the caller of `tpool_destroy` if and only if the worker leaves, and no other worker. */
  lemma WhoIsWoken(n: nat, calls: seq<Call>, events: seq<Event>, i: nat)
    requires ValidCalls(calls) && i < |Run(Init(n, calls), events).workers|
    ensures var s := Run(Init(n, calls), events);
      var s' := StepWorker(s, i);
      && (s.ctl.AsleepB? ==> s'.ctl == if s'.core.jc == 0 && s'.core.queue == [] then Waiting else AsleepB)
      && (s.ctl.AsleepC? ==> s'.ctl == if s'.core.tc < s.core.tc then Stopping else AsleepC)
      && (!s.ctl.AsleepB? && !s.ctl.AsleepC? ==> s'.ctl == s.ctl)
      && |s'.workers| == |s.workers| && forall j | 0 <= j < |s.workers| && j != i :: s'.workers[j] == s.workers[j]
  {
    ReachableInv(n, calls, events);
    WorkerKeepsInv(Run(Init(n, calls), events), i);
  }

  lemma ShutdownStep(s: State, e: Event)
    requires Inv(s) && s.core.shutdown
    ensures var s' := Step(s, e);
      && Inv(s') && s'.core.shutdown
      && s'.executed == s.executed && s'.core.queue == s.core.queue && s'.added == s.added
  {
    StepKeepsInv(s, e);
  }

  lemma {:induction false} ShutdownRun(s: State, events: seq<Event>)
    requires Inv(s) && s.core.shutdown
    ensures var s' := Run(s, events);
      s'.executed == s.executed && s'.core.queue == s.core.queue && s'.added == s.added
    decreases |events|
  {
    if events == [] {
    } else {
      ShutdownStep(s, events[0]);
      ShutdownRun(Step(s, events[0]), events[1..]);
    }
  }

  /** `tpool_destroy` does not wait for the queue: from the step that makes the call on no job is
      executed any more, and what is queued then stays there. */
  lemma DestroyDropsQueue(n: nat, calls: seq<Call>, events: seq<Event>, more: seq<Event>)
    requires ValidCalls(calls)
    requires var s := Run(Init(n, calls), events); s.ctl.Ready? && s.calls != [] && s.calls[0].Destroy?
    ensures var s := Run(Init(n, calls), events);
      var s' := Run(Step(s, ControlRuns), more);
      s'.executed == s.executed && s'.core.queue == s.core.queue && s'.added == s.executed + s.core.queue
  {
    ReachableInv(n, calls, events);
    var s := Run(Init(n, calls), events);
    StepKeepsInv(s, ControlRuns);
    ShutdownRun(Step(s, ControlRuns), more);
  }

  /** Once `wait2` has returned no worker has a step left that touches the pool. */
  lemma DestroyedIsFinal(n: nat, calls: seq<Call>, events: seq<Event>, e: Event)
    requires ValidCalls(calls) && Run(Init(n, calls), events).ctl.Destroyed?
    ensures var s := Run(Init(n, calls), events);
      |s.workers| == n && (forall i :: 0 <= i < n ==> s.workers[i].Gone?) && Step(s, e) == s
  {
    ReachableInv(n, calls, events);
    var s := Run(Init(n, calls), events);
    forall i | 0 <= i < n ensures s.workers[i].Gone? {
      NoneLive(s.workers, i);
    }
  }

  // ----- progress -------------------------------------------------------------------------

  /** The controlling thread has made its calls and they have returned. */
  predicate Done(s: State) { s.calls == [] && (s.ctl.Ready? || s.ctl.Destroyed?) }

  predicate InCall(c: Controller) { c.Waiting? || c.AsleepB? || c.Stopping? || c.AsleepC? }

  /** Work left, blind to falling asleep and waking up. */
  ghost function Left(s: State): nat {
    3 * |s.calls| + 2 * |s.core.queue| + InFlight(s.workers) + Live(s.workers) + (if InCall(s.ctl) then 1 else 0)
  }

  ghost predicate WorkerAble(s: State, i: nat) {
    i < |s.workers| && (s.workers[i].Holding? || (s.workers[i].Start? && (s.core.shutdown || s.core.queue != [])))
  }

  ghost predicate ControlAble(s: State) {
    || (s.ctl.Ready? && s.calls != [])
    || (s.ctl.Waiting? && Drained(s.core)) || (s.ctl.Stopping? && s.core.tc == 0)
  }

  ghost predicate Able(s: State, e: Event) {
    match e
    case WorkerRuns(i) => WorkerAble(s, i)
    case ControlRuns => ControlAble(s)
    case _ => false
  }

  /** An able event gets work done; any other only puts somebody to sleep or wakes somebody up,
      and takes nobody else's chance away. */
  lemma AbleAdvances(s: State, e: Event)
    requires Inv(s)
    ensures Able(s, e) ==> Left(Step(s, e)) < Left(s)
    ensures !Able(s, e) ==> Left(Step(s, e)) == Left(s)
  {
    match e
    case WorkerRuns(i) => if i < |s.workers| { CountsUpdate(s.workers, i, StepWorker(s, i).workers[i]); }
    case ControlRuns => CountsWakeAll(s.workers);
    case WorkerWakes(i) => if i < |s.workers| { CountsUpdate(s.workers, i, Start); }
    case ControlWakes =>
  }

  lemma AbleStays(s: State, e: Event, x: Event)
    requires !Able(s, e) && Able(s, x)
    ensures Able(Step(s, e), x)
  {
  }

  lemma {:induction false} FindHolding(ws: seq<Worker>) returns (i: nat)
    requires InFlight(ws) > 0
    ensures i < |ws| && ws[i].Holding?
  {
    if ws[0].Holding? {
      i := 0;
    } else {
      i := FindHolding(ws[1..]);
      i := i + 1;
    }
  }

  lemma {:induction false} FindLive(ws: seq<Worker>) returns (i: nat)
    requires Live(ws) > 0
    ensures i < |ws| && !ws[i].Gone?
  {
    if !ws[0].Gone? {
      i := 0;
    } else {
      i := FindLive(ws[1..]);
      i := i + 1;
    }
  }

  /** No deadlock: until the controlling thread's calls have all returned, some thread can get
      work done without any spurious wakeup. */
  lemma SomeoneAble(s: State) returns (e: Event)
    requires Inv(s) && !Done(s) && |s.workers| > 0
    ensures Able(s, e) && (e.WorkerRuns? || e.ControlRuns?)
    ensures e.WorkerRuns? ==> e.i < |s.workers|
  {
    if ControlAble(s) {
      e := ControlRuns;
    } else if s.core.shutdown {
      var i := FindLive(s.workers);
      e := WorkerRuns(i);
    } else if s.core.jc != 0 {
      var i := FindHolding(s.workers);
      e := WorkerRuns(i);
    } else {
      e := WorkerRuns(0);
    }
  }

  /** A round gives every thread a turn; spurious wakeups may come in between. */
  ghost predicate Fair(round: seq<Event>, n: nat) {
    ControlRuns in round && forall i: nat :: i < n ==> WorkerRuns(i) in round
  }

  lemma {:induction false} RoundAdvances(s: State, x: Event, bound: nat, round: seq<Event>)
    requires Inv(s) && (Left(s) < bound || (Left(s) == bound && Able(s, x) && x in round))
    ensures Left(Run(s, round)) < bound
    decreases |round|
  {
    if round == [] {
    } else {
      var e := round[0];
      StepKeepsInv(s, e);
      AbleAdvances(s, e);
      if Left(s) == bound && !Able(s, e) {
        AbleStays(s, e, x);
      }
      RoundAdvances(Step(s, e), x, bound, round[1..]);
    }
  }

  function Flatten(rounds: seq<seq<Event>>): seq<Event> {
    if rounds == [] then [] else rounds[0] + Flatten(rounds[1..])
  }

  lemma {:induction false} RunAppend(s: State, left: seq<Event>, right: seq<Event>)
    ensures Run(s, left + right) == Run(Run(s, left), right)
    decreases |left|
  {
    if left == [] {
      assert left + right == right;
    } else {
      assert (left + right)[1..] == left[1..] + right;
      RunAppend(Step(s, left[0]), left[1..], right);
    }
  }

  lemma {:induction false} DoneStays(s: State, events: seq<Event>)
    requires Done(s)
    ensures Done(Run(s, events)) && Run(s, events).ctl == s.ctl
    decreases |events|
  {
    if events == [] {
    } else {
      DoneStays(Step(s, events[0]), events[1..]);
    }
  }

  lemma {:induction false} RoundsFinish(s: State, rounds: seq<seq<Event>>)
    requires Inv(s) && FreedInv(s) && |s.workers| > 0 && |rounds| >= Left(s)
    requires forall r :: r in rounds ==> Fair(r, |s.workers|)
    ensures Done(Run(s, Flatten(rounds)))
    decreases |rounds|
  {
    if Done(s) {
      DoneStays(s, Flatten(rounds));
    } else {
      var x := SomeoneAble(s);
      AbleAdvances(s, x);
      var round := rounds[0];
      assert Fair(round, |s.workers|);
      RoundAdvances(s, x, Left(s), round);
      RunKeepsInv(s, round);
      RunAppend(s, round, Flatten(rounds[1..]));
      RoundsFinish(Run(s, round), rounds[1..]);
    }
  }

  /** Under every fair schedule, with any number of spurious wakeups, all calls return. */
  lemma CallsReturn(n: nat, calls: seq<Call>, rounds: seq<seq<Event>>)
    requires n >= 1 && ValidCalls(calls) && |rounds| >= 3 * |calls| + n
    requires forall r :: r in rounds ==> Fair(r, n)
    ensures Done(Run(Init(n, calls), Flatten(rounds)))
  {
    ReachableInv(n, calls, []);
    CountsInit(n);
    RoundsFinish(Init(n, calls), rounds);
  }
}
