/** The order in which threads run and print. Without signals each of them runs to its exit before the
    next one starts: first the one created first, then the others from the last one created backwards. */
module ThreadOrder {
  import opened Scheduler
  import opened Threads
  import opened ThreadInvariant
  import opened ThreadRuns

  // ----- the standard output --------------------------------------------------------------

  datatype Printed = Printed(id: int, line: Line)

  function Tagged(id: int, lines: seq<Line>): seq<Printed> {
    seq(|lines|, i requires 0 <= i < |lines| => Printed(id, lines[i]))
  }

  /** What the next step prints. */
  function Spoken(m: Machine): seq<Printed> {
    if !Runnable(m) then []
    else var id := m.q.ready[m.q.cur]; Tagged(id, Says(m.threads[id], m.balance))
  }

  /** Everything that is printed in a run, in order. */
  function Output(m: Machine, signals: seq<bool>): seq<Printed>
    decreases |signals|
  {
    if signals == [] then [] else Spoken(m) + Output(Step(m, signals[0]), signals[1..])
  }

  /** The lines of one thread. */
  function LinesOf(out: seq<Printed>, id: int): seq<Line> {
    if out == [] then []
    else (if out[0].id == id then [out[0].line] else []) + LinesOf(out[1..], id)
  }

  lemma {:induction false} LinesOfTagged(me: int, lines: seq<Line>, id: int)
    ensures LinesOf(Tagged(me, lines), id) == if me == id then lines else []
    decreases |lines|
  {
    if lines == [] {
    } else {
      assert Tagged(me, lines)[1..] == Tagged(me, lines[1..]);
      LinesOfTagged(me, lines[1..], id);
    }
  }

  lemma {:induction false} LinesOfAppend(a: seq<Printed>, b: seq<Printed>, id: int)
    ensures LinesOf(a + b, id) == LinesOf(a, id) + LinesOf(b, id)
    decreases |a|
  {
    if a == [] {
      assert a + b == b;
    } else {
      assert (a + b)[1..] == a[1..] + b;
      LinesOfAppend(a[1..], b, id);
      AssocLines(if a[0].id == id then [a[0].line] else [], LinesOf(a[1..], id), LinesOf(b, id));
    }
  }

  /** A step changes its thread only. */
  lemma StepThreads(m: Machine, signal: bool)
    requires Runnable(m)
    ensures var me := m.q.ready[m.q.cur];
      Step(m, signal).threads == m.threads[me := Next(m.threads[me], m.balance)]
  {
  }

  lemma StepSpeaks(m: Machine, signal: bool, id: int)
    requires id in m.threads
    ensures var m' := Step(m, signal);
      id in m'.threads && m'.threads[id].printed == m.threads[id].printed + LinesOf(Spoken(m), id)
  {
    if Runnable(m) {
      var me := m.q.ready[m.q.cur];
      StepThreads(m, signal);
      LinesOfTagged(me, Says(m.threads[me], m.balance), id);
    }
  }

  lemma AssocLines(a: seq<Line>, b: seq<Line>, c: seq<Line>)
    ensures a + (b + c) == a + b + c
  {
  }

  /** What a thread has printed is its part of the output, in every run. */
  lemma {:induction false} OutputByThread(m: Machine, signals: seq<bool>, id: int)
    requires id in m.threads
    ensures var m' := Run(m, signals);
      id in m'.threads && m'.threads[id].printed == m.threads[id].printed + LinesOf(Output(m, signals), id)
    decreases |signals|
  {
    if signals == [] {
    } else {
      var m1 := Step(m, signals[0]);
      StepSpeaks(m, signals[0], id);
      OutputByThread(m1, signals[1..], id);
      LinesOfAppend(Spoken(m), Output(m1, signals[1..]), id);
      AssocLines(m.threads[id].printed, LinesOf(Spoken(m), id), LinesOf(Output(m1, signals[1..]), id));
    }
  }

  // ----- runs without signals -------------------------------------------------------------

  /** No signal at any of `n` steps. */
  function Quiet(n: nat): seq<bool> { seq(n, _ => false) }

  lemma QuietNext(n: nat)
    requires n > 0
    ensures Quiet(n)[0] == false && Quiet(n)[1..] == Quiet(n - 1)
  {
  }

  lemma QuietStep(m: Machine, n: nat)
    requires n > 0
    ensures Run(m, Quiet(n)) == Run(Step(m, false), Quiet(n - 1))
    ensures Output(m, Quiet(n)) == Spoken(m) + Output(Step(m, false), Quiet(n - 1))
  {
    QuietNext(n);
  }

  lemma {:induction false} QuietSplit(m: Machine, n: nat, k: nat)
    ensures Run(m, Quiet(n + k)) == Run(Run(m, Quiet(n)), Quiet(k))
    ensures Output(m, Quiet(n + k)) == Output(m, Quiet(n)) + Output(Run(m, Quiet(n)), Quiet(k))
    decreases n
  {
    if n == 0 {
      assert Quiet(n) == [];
    } else {
      var m1 := Step(m, false);
      QuietSplit(m1, n - 1, k);
      QuietStep(m, n);
      QuietStep(m, n + k);
      Assoc(Spoken(m), Output(m1, Quiet(n - 1)), Output(Run(m1, Quiet(n - 1)), Quiet(k)));
    }
  }

  lemma Assoc(a: seq<Printed>, b: seq<Printed>, c: seq<Printed>)
    ensures a + (b + c) == a + b + c
  {
  }

  /** Nobody waits, and nobody but the running thread has the lock. */
  ghost predicate Solo(m: Machine) {
    && RunInv(m) && Runnable(m) && m.q.waiting == []
    && (m.q.owner == FREE || m.q.owner == m.q.ready[m.q.cur])
  }

  /** After the exit of the running thread. */
  ghost predicate Left(q: Queues, q': Queues)
    requires q.cur < |q.ready|
  {
    var n := |q.ready|;
    && q'.waiting == [] && q'.owner == FREE
    && if q.cur == n - 1 then q'.ready == q.ready[..n - 1] && q'.cur == 0
       else q'.ready == q.ready[q.cur := q.ready[n - 1]][..n - 1] && q'.cur == q.cur
  }

  lemma SoloStep(m: Machine)
    requires Solo(m)
    ensures var me, m' := m.q.ready[m.q.cur], Step(m, false);
      && RunInv(m') && m'.threads == m.threads[me := Next(m.threads[me], m.balance)]
      && if Exited(m'.threads[me]) then Left(m.q, m'.q)
         else Solo(m') && m'.q.ready == m.q.ready && m'.q.cur == m.q.cur
  {
    var me := m.q.ready[m.q.cur];
    var t := m.threads[me];
    assert me in m.q.ready && (m.q.owner == me <==> me in LockingIds(m.threads));
    NextFacts(t, m.balance);
    StepThreads(m, false);
    StepKeepsRunInv(m, false);
    OnlyCallsSwitch(m);
  }

  /** From `m` the running thread has run to its exit, and printed `out` on the way. */
  ghost predicate RanToExit(m: Machine, m': Machine, out: seq<Printed>)
    requires Runnable(m)
  {
    var me := m.q.ready[m.q.cur];
    var before := m.threads[me].printed;
    && Left(m.q, m'.q)
    && me in m'.threads && m'.threads == m.threads[me := m'.threads[me]]
    && before <= m'.threads[me].printed
    && out == Tagged(me, m'.threads[me].printed[|before|..])
  }

  lemma LastStep(m: Machine)
    requires Solo(m) && var me := m.q.ready[m.q.cur]; Exited(Next(m.threads[me], m.balance))
    ensures RanToExit(m, Step(m, false), Spoken(m))
  {
    var me := m.q.ready[m.q.cur];
    SoloStep(m);
    var before, now := m.threads[me].printed, Says(m.threads[me], m.balance);
    assert (before + now)[|before|..] == now;
  }

  lemma EarlierStep(m: Machine, m': Machine, out: seq<Printed>)
    requires Solo(m) && Solo(Step(m, false)) && RanToExit(Step(m, false), m', out)
    requires var me := m.q.ready[m.q.cur]; !Exited(Next(m.threads[me], m.balance))
    ensures RanToExit(m, m', Spoken(m) + out)
  {
    var me := m.q.ready[m.q.cur];
    SoloStep(m);
    TaggedSplit(me, m.threads[me].printed, Says(m.threads[me], m.balance), m'.threads[me].printed);
  }

  lemma OneLess(m: Machine, n: nat)
    requires Solo(m) && var me := m.q.ready[m.q.cur]; Ok(m.threads[me]) && n == Remaining(m.threads[me])
    ensures var me, m1 := m.q.ready[m.q.cur], Step(m, false);
      && n > 0 && RunInv(m1) && me in m1.threads && m1.threads[me] == Next(m.threads[me], m.balance)
      && Ok(m1.threads[me]) && Remaining(m1.threads[me]) == n - 1
      && (!Exited(m1.threads[me]) ==> Solo(m1) && m1.q.ready[m1.q.cur] == me)
      && (Exited(m1.threads[me]) <==> n == 1)
  {
    NextFacts(m.threads[m.q.ready[m.q.cur]], m.balance);
    SoloStep(m);
  }

  /** A run of `n` steps that ends with the exit of the running thread. */
  ghost predicate ExitsAfter(m: Machine, n: nat) {
    Runnable(m) && RunInv(Run(m, Quiet(n))) && RanToExit(m, Run(m, Quiet(n)), Output(m, Quiet(n)))
  }

  lemma ExitsNow(m: Machine)
    requires Solo(m) && var me := m.q.ready[m.q.cur]; Exited(Next(m.threads[me], m.balance))
    ensures ExitsAfter(m, 1)
  {
    QuietStep(m, 1);
    LastStep(m);
    SoloStep(m);
    assert Quiet(0) == [] && Spoken(m) + [] == Spoken(m);
  }

  lemma ExitsLater(m: Machine, n: nat)
    requires Solo(m) && Solo(Step(m, false)) && ExitsAfter(Step(m, false), n)
    requires var me := m.q.ready[m.q.cur]; !Exited(Next(m.threads[me], m.balance))
    ensures ExitsAfter(m, n + 1)
  {
    var m1 := Step(m, false);
    QuietStep(m, n + 1);
    EarlierStep(m, Run(m1, Quiet(n)), Output(m1, Quiet(n)));
  }

  /** Without signals the running thread runs to its exit, whatever it is. */
  lemma {:induction false} RunsToItsExit(m: Machine, n: nat)
    requires Solo(m) && var me := m.q.ready[m.q.cur]; Ok(m.threads[me]) && n == Remaining(m.threads[me])
    ensures ExitsAfter(m, n)
    decreases n
  {
    OneLess(m, n);
    if n == 1 {
      ExitsNow(m);
    } else {
      RunsToItsExit(Step(m, false), n - 1);
      ExitsLater(m, n - 1);
    }
  }

  lemma TaggedSplit(me: int, before: seq<Line>, now: seq<Line>, after: seq<Line>)
    requires before + now <= after
    ensures before <= after
    ensures Tagged(me, after[|before|..]) == Tagged(me, now) + Tagged(me, after[|before + now|..])
  {
    assert after[|before|..] == now + after[|before + now|..];
  }

  /** The order of the threads. */
  function Turns(ready: seq<int>): (order: seq<int>)
    ensures |order| == |ready|
    ensures ready != [] ==> order[0] == ready[0]
    ensures forall k | 0 < k < |ready| :: order[k] == ready[|ready| - k]
  {
    seq(|ready|, k requires 0 <= k < |ready| => if k == 0 then ready[0] else ready[|ready| - k])
  }

  lemma TurnsNext(ready: seq<int>)
    requires |ready| > 1
    ensures Turns(ready)
         == [ready[0]] + Turns(ready[0 := ready[|ready| - 1]][..|ready| - 1])
  {
  }

  /** What the threads have printed, one thread after the other. */
  function Grouped(order: seq<int>, threads: map<int, Thread>): seq<Printed> {
    if order == [] then []
    else
      (if order[0] in threads then Tagged(order[0], threads[order[0]].printed) else [])
      + Grouped(order[1..], threads)
  }

  ghost predicate Silent(m: Machine) {
    forall id | id in m.q.ready :: id in m.threads && m.threads[id].printed == []
  }

  /** All threads have run, one after the other. */
  ghost predicate AllRan(m: Machine, m': Machine, out: seq<Printed>) {
    && Finished(m') && out == Grouped(Turns(m.q.ready), m'.threads)
    && m'.threads.Keys == m.threads.Keys
    && forall id | id in m.threads && id !in m.q.ready :: m'.threads[id] == m.threads[id]
  }

  ghost predicate AtStart(m: Machine) {
    RunInv(m) && m.q.waiting == [] && m.q.owner == FREE && m.q.cur == 0 && Silent(m)
  }

  /** From `m` the first thread has run to its exit; `m1` is the same with one thread less. */
  ghost predicate FirstDone(m: Machine, m1: Machine, out: seq<Printed>) {
    && m.q.ready != [] && m.q.cur == 0 && Silent(m) && Runnable(m) && RanToExit(m, m1, out)
    && m.q.ready[0] !in m1.q.ready && |m1.q.ready| < |m.q.ready|
    && (forall id | id in m1.q.ready :: id in m.q.ready)
    && Turns(m.q.ready) == [m.q.ready[0]] + Turns(m1.q.ready)
  }

  /** How many steps it has left. */
  ghost function FirstLength(m: Machine): nat {
    if m.q.ready != [] && m.q.ready[0] in m.threads && Ok(m.threads[m.q.ready[0]])
    then Remaining(m.threads[m.q.ready[0]]) else 0
  }

  lemma FirstRuns(m: Machine)
    requires AtStart(m) && m.q.ready != []
    ensures var k := FirstLength(m);
      AtStart(Run(m, Quiet(k))) && FirstDone(m, Run(m, Quiet(k)), Output(m, Quiet(k)))
  {
    NeverEmptySlot(m);
    var me, k := m.q.ready[0], FirstLength(m);
    assert me in m.threads && Ok(m.threads[me]);
    RunsToItsExit(m, k);
    Rest(m, Run(m, Quiet(k)), Output(m, Quiet(k)));
  }

  /** One thread less. */
  lemma FewerLeft(m: Machine)
    requires AtStart(m) && m.q.ready != []
    ensures var m1 := Run(m, Quiet(FirstLength(m))); AtStart(m1) && |m1.q.ready| < |m.q.ready|
  {
    FirstRuns(m);
  }

  /** From a state in which the first ready thread runs and none has printed yet. */
  lemma {:induction false} AllRun(m: Machine) returns (n: nat)
    requires AtStart(m)
    ensures AllRan(m, Run(m, Quiet(n)), Output(m, Quiet(n)))
    decreases |m.q.ready|, 1
  {
    if m.q.ready == [] {
      n := 0;
      assert Quiet(0) == [];
    } else {
      n := SomeRun(m);
    }
  }

  lemma {:induction false} SomeRun(m: Machine) returns (n: nat)
    requires AtStart(m) && m.q.ready != []
    ensures AllRan(m, Run(m, Quiet(n)), Output(m, Quiet(n)))
    decreases |m.q.ready|, 0
  {
    FewerLeft(m);
    var rest := AllRun(Run(m, Quiet(FirstLength(m))));
    n := FirstLength(m) + rest;
    RunsCombine(m, rest);
  }

  lemma RunsCombine(m: Machine, rest: nat)
    requires AtStart(m) && m.q.ready != []
    requires var m1 := Run(m, Quiet(FirstLength(m))); AllRan(m1, Run(m1, Quiet(rest)), Output(m1, Quiet(rest)))
    ensures var n := FirstLength(m) + rest; AllRan(m, Run(m, Quiet(n)), Output(m, Quiet(n)))
  {
    var k := FirstLength(m);
    var m1 := Run(m, Quiet(k));
    FirstRuns(m);
    FirstThenRest(m, m1, Run(m1, Quiet(rest)), Output(m, Quiet(k)), Output(m1, Quiet(rest)));
    QuietSplit(m, k, rest);
  }

  lemma FirstThenRest(m: Machine, m1: Machine, m': Machine, out: seq<Printed>, more: seq<Printed>)
    requires FirstDone(m, m1, out) && AllRan(m1, m', more)
    ensures AllRan(m, m', out + more)
  {
    var me := m.q.ready[0];
    assert me in m.q.ready;
    assert ([me] + Turns(m1.q.ready))[1..] == Turns(m1.q.ready);
    assert m'.threads[me].printed[0..] == m'.threads[me].printed;
  }

  /** The threads that are left when the first one has exited. */
  lemma Rest(m: Machine, m1: Machine, out: seq<Printed>)
    requires AtStart(m) && Runnable(m) && RunInv(m1) && RanToExit(m, m1, out)
    ensures AtStart(m1) && m.q.ready[0] !in m1.q.ready && |m1.q.ready| < |m.q.ready|
    ensures forall id | id in m1.q.ready :: id in m.q.ready
    ensures Turns(m.q.ready) == [m.q.ready[0]] + Turns(m1.q.ready)
  {
    var ready, n := m.q.ready, |m.q.ready|;
    if n == 1 {
      assert Turns(m1.q.ready) == [] && Turns(ready) == [ready[0]];
    } else {
      TurnsNext(ready);
      assert forall k | 0 <= k < |m1.q.ready| :: m1.q.ready[k] == if k == 0 then ready[n - 1] else ready[k];
    }
  }

  lemma {:induction false} FinishedIsSilent(m: Machine, n: nat)
    requires Finished(m)
    ensures Run(m, Quiet(n)) == m && Output(m, Quiet(n)) == []
    decreases n
  {
    if n == 0 {
    } else {
      QuietNext(n);
      FinishedIsSilent(m, n - 1);
    }
  }

  /** Once all threads have exited, longer runs do and print the same. */
  lemma SameEnd(m: Machine, n: nat, k: nat)
    requires Finished(Run(m, Quiet(n))) && n <= k
    ensures Run(m, Quiet(k)) == Run(m, Quiet(n)) && Output(m, Quiet(k)) == Output(m, Quiet(n))
  {
    QuietSplit(m, n, k - n);
    FinishedIsSilent(Run(m, Quiet(n)), k - n);
  }

  /** Without signals the output is that of one thread after the other, the first created first and the
      others from the last created backwards. */
  lemma OneAfterAnother(created: seq<int>, threads: map<int, Thread>, n: nat)
    requires ValidStart(created, threads) && n >= Total(created, threads)
    ensures Output(Init(created, threads), Quiet(n))
         == Grouped(Turns(created), Run(Init(created, threads), Quiet(n)).threads)
  {
    var m := Init(created, threads);
    InitRunInv(created, threads);
    AllThreadsExit(created, threads, Quiet(n));
    var k := AllRun(m);
    if k <= n {
      SameEnd(m, k, n);
    } else {
      SameEnd(m, n, k);
    }
  }
}
