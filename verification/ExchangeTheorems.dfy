/** What an exchange guarantees, for every tree, every placement of its two targets and every
    interleaving. */
module ExchangeTheorems {
  import opened Trees
  import opened Text
  import opened Exchange
  import opened ExchangeInvariant
  import opened ExchangeSteps
  import opened ExchangeSearch
  import opened ExchangeProgress

  // ----- safety ---------------------------------------------------------------------------

  lemma StepKeepsInv(c: Config, s: State, x: Actor)
    requires ValidConfig(c) && Inv(c, s)
    ensures Inv(c, Step(c, s, x))
  {
    match x
    case Token => TokenKeepsInv(c, s);
    case FirstTarget => FirstKeepsInv(c, s);
    case SecondTarget => SecondKeepsInv(c, s);
    case TheManager => ManagerKeepsInv(c, s);
  }

  lemma {:induction false} RunKeepsInv(c: Config, s: State, schedule: seq<Actor>)
    requires ValidConfig(c) && Inv(c, s)
    ensures Inv(c, Run(c, s, schedule))
    decreases |schedule|
  {
    if schedule == [] {
    } else {
      StepKeepsInv(c, s, schedule[0]);
      RunKeepsInv(c, Step(c, s, schedule[0]), schedule[1..]);
    }
  }

  lemma ReachableInv(c: Config, schedule: seq<Actor>)
    requires ValidConfig(c)
    ensures Inv(c, Run(c, Init(c), schedule))
  {
    InitInv(c);
    RunKeepsInv(c, Init(c), schedule);
  }

  function Swapped(c: Config): map<string, nat>
    requires c.a in c.secrets && c.b in c.secrets
  {
    c.secrets[c.a := c.secrets[c.b]][c.b := c.secrets[c.a]]
  }

  ghost predicate BothStored(s: State) { Progress1(s.meet.p1) == 9 && Progress2(s.meet.p2) == 9 }

  lemma StoredMeansSwapped(c: Config, s: State)
    requires ValidConfig(c) && SecretsInv(c, s.meet) && BothStored(s)
    requires IsTarget(c, s.meet.first) && IsTarget(c, s.meet.second)
    ensures s.meet.secrets == Swapped(c)
  {
  }

  lemma EndState(c: Config, s: State)
    requires ValidConfig(c) && Found(c, s.search.log) == 2 && NamesInv(c, s.search.log, s.meet)
    requires MarkerInv(c, s) && SecretsInv(c, s.meet)
    requires s.mpc.Finish? && s.meet.p1.Done? && s.meet.p2.Done?
    ensures s.meet.secrets == Swapped(c) && s.markers == {} && s.linked == {}
  {
    StoredMeansSwapped(c, s);
  }

  /** A finished exchange has swapped exactly the two secrets and left no file behind. */
  lemma ExchangeSwaps(c: Config, schedule: seq<Actor>)
    requires ValidConfig(c) && Finished(Run(c, Init(c), schedule))
    ensures var s := Run(c, Init(c), schedule);
      s.meet.secrets == Swapped(c) && s.markers == {} && s.linked == {}
  {
    ReachableInv(c, schedule);
    EndState(c, Run(c, Init(c), schedule));
  }

  lemma FirstNotCrashed(c: Config, s: State)
    requires if Found(c, s.search.log) == 2 then MeetingInv(c, s.meet) else ApartInv(c, s.meet)
    ensures !s.meet.p1.Crashed?
  {
    assert s.meet.p1.Crashed? ==> Progress1(s.meet.p1) == 99;
  }

  lemma SecondNotCrashed(c: Config, s: State)
    requires ModeInv(c, s) && Found(c, s.search.log) <= 2
    requires Found(c, s.search.log) == 2 ==> MeetingInv(c, s.meet)
    ensures !s.meet.p2.Crashed?
  {
    assert s.meet.p2.Crashed? ==> Progress2(s.meet.p2) == 99;
  }

  lemma InvNotCrashed(c: Config, s: State)
    requires Inv(c, s)
    ensures !s.meet.p1.Crashed? && !s.meet.p2.Crashed?
  {
    FirstNotCrashed(c, s);
    SecondNotCrashed(c, s);
  }

  /** No call ever fails: no write without a reader, no read from an abandoned FIFO, no open of
      a FIFO that is already removed. */
  lemma NothingCrashes(c: Config, schedule: seq<Actor>)
    requires ValidConfig(c)
    ensures var m := Run(c, Init(c), schedule).meet; !m.p1.Crashed? && !m.p2.Crashed?
  {
    ReachableInv(c, schedule);
    InvNotCrashed(c, Run(c, Init(c), schedule));
  }

  // ----- the search -----------------------------------------------------------------------

  lemma SearchedState(c: Config, s: State)
    requires LogInv(c, s.search) && Found(c, s.search.log) == 2
    ensures var q := s.search;
      && q.log <= Preorder(c.root) && c.a in q.log && c.b in q.log
      && IsTarget(c, q.log[|q.log| - 1])
      && |q.counts| == |q.log|
      && forall i :: 0 <= i < |q.log| ==> q.counts[i] == Found(c, q.log[..i])
  {
  }

  /** The services that log the command are the preorder prefix that ends at the second target
      met, and each received the number of targets before it. */
  lemma SearchLog(c: Config, schedule: seq<Actor>)
    requires ValidConfig(c) && !Run(c, Init(c), schedule).mpc.Searching?
    ensures var q := Run(c, Init(c), schedule).search;
      && q.log <= Preorder(c.root) && c.a in q.log && c.b in q.log
      && IsTarget(c, q.log[|q.log| - 1])
      && |q.counts| == |q.log|
      && forall i :: 0 <= i < |q.log| ==> q.counts[i] == Found(c, q.log[..i])
  {
    ReachableInv(c, schedule);
    SearchedState(c, Run(c, Init(c), schedule));
  }

  // ----- fair schedules -------------------------------------------------------------------

  /** The actor's next system call returns, and is not one more poll in vain. */
  ghost predicate Able(c: Config, s: State, x: Actor) {
    match x
    case Token => s.search.msg.Down? || (s.search.frames != [] && !(Holding(s.search) && !s.meet.p1.Idle?))
    case FirstTarget =>
      if Spinning(s.meet.p1) then Marked(c, s) else StepFirst(c, s).meet.p1 != s.meet.p1
    case SecondTarget => StepSecond(s).meet.p2 != s.meet.p2
    case TheManager =>
      if s.mpc.Check1? || s.mpc.Check2? then Unmarked(c, s) else Closing(s.mpc) && !s.mpc.Finish?
  }

  lemma FirstAble(c: Config, s: State)
    requires ModeInv(c, s) && MarkerInv(c, s)
    ensures Able(c, s, FirstTarget) <==> Advances(c, s, FirstTarget)
  {
    if Spinning(s.meet.p1) {
      if Marked(c, s) {
        FirstPollSucceeds(c, s);
      }
    } else if Able(c, s, FirstTarget) {
      FirstMoving(c, s);
    } else if !s.meet.p1.Report? && !s.meet.p1.Unlink? {
      FirstDescends(c, s);
    }
  }

  lemma SecondAble(c: Config, s: State)
    requires Inv(c, s)
    ensures Able(c, s, SecondTarget) <==> Advances(c, s, SecondTarget)
  {
    InvUnlinksLate(c, s);
    if Able(c, s, SecondTarget) {
      SecondMoving(c, s);
    } else {
      SecondDescends(s);
    }
  }

  lemma TokenAble(c: Config, s: State)
    requires Inv(c, s)
    ensures Able(c, s, Token) <==> Advances(c, s, Token)
  {
    if Able(c, s, Token) {
      assert s.mode.Direct? ==> !Holding(s.search) || !s.meet.p1.Idle?;
      TokenAdvances(c, s);
    } else {
      assert StepToken(c, s) == s;
    }
  }

  lemma ManagerAble(c: Config, s: State)
    requires MarkerInv(c, s)
    ensures Able(c, s, TheManager) <==> Advances(c, s, TheManager)
  {
    if Able(c, s, TheManager) {
      ManagerAdvances(c, s);
    }
  }

  lemma AbleAdvances(c: Config, s: State, x: Actor)
    requires Inv(c, s)
    ensures Able(c, s, x) <==> Advances(c, s, x)
  {
    match x
    case Token => TokenAble(c, s);
    case FirstTarget => FirstAble(c, s);
    case SecondTarget => SecondAble(c, s);
    case TheManager => ManagerAble(c, s);
  }

  /** A poll in vain takes no other actor's turn away. */
  lemma AbleCalm(c: Config, s: State, t: State, x: Actor)
    requires Calm(s) == Calm(t) && Able(c, s, x)
    ensures Able(c, t, x)
  {
  }

  /** A round is fair when every actor gets a turn in it. */
  ghost predicate Fair(round: seq<Actor>) { forall x: Actor :: x in round }

  lemma {:induction false} RunAppend(c: Config, s: State, left: seq<Actor>, right: seq<Actor>)
    ensures Run(c, s, left + right) == Run(c, Run(c, s, left), right)
    decreases |left|
  {
    if left == [] {
      assert left + right == right;
    } else {
      assert (left + right)[1..] == left[1..] + right;
      RunAppend(c, Step(c, s, left[0]), left[1..], right);
    }
  }

  /** A state that some schedule leads to. */
  ghost predicate Reachable(c: Config, s: State) { exists schedule :: Run(c, Init(c), schedule) == s }

  lemma ReachableHasInv(c: Config, s: State)
    requires ValidConfig(c) && Reachable(c, s)
    ensures Inv(c, s)
  {
    var schedule :| Run(c, Init(c), schedule) == s;
    ReachableInv(c, schedule);
  }

  lemma ReachableRun(c: Config, s: State, more: seq<Actor>)
    requires Reachable(c, s)
    ensures Reachable(c, Run(c, s, more))
  {
    var schedule :| Run(c, Init(c), schedule) == s;
    RunAppend(c, Init(c), schedule, more);
  }

  lemma ReachableStep(c: Config, s: State, x: Actor)
    requires Reachable(c, s)
    ensures Reachable(c, Step(c, s, x))
  {
    ReachableRun(c, s, [x]);
    assert [x][1..] == [];
    assert Run(c, s, [x]) == Step(c, s, x);
  }

  lemma StartReachable(c: Config)
    ensures Reachable(c, Init(c))
  {
    assert Run(c, Init(c), []) == Init(c);
  }

  /** An able actor's step lowers the rank; another step lowers it or leaves the actor able. */
  lemma TurnAdvances(c: Config, s: State, x: Actor, y: Actor)
    requires ValidConfig(c) && Reachable(c, s) && Able(c, s, x)
    ensures Rank(c, Step(c, s, y)) <= Rank(c, s)
    ensures Rank(c, Step(c, s, y)) == Rank(c, s) ==> y != x && Able(c, Step(c, s, y), x)
  {
    ReachableHasInv(c, s);
    StepDescends(c, s, y);
    AbleAdvances(c, s, x);
    if Rank(c, Step(c, s, y)) == Rank(c, s) {
      AbleCalm(c, s, Step(c, s, y), x);
    }
  }

  lemma TurnDescends(c: Config, s: State, y: Actor)
    requires ValidConfig(c) && Reachable(c, s)
    ensures Rank(c, Step(c, s, y)) <= Rank(c, s)
  {
    ReachableHasInv(c, s);
    StepDescends(c, s, y);
  }

  lemma {:induction false} RoundAdvances(c: Config, s: State, x: Actor, bound: nat, round: seq<Actor>)
    requires ValidConfig(c) && Reachable(c, s)
    requires Rank(c, s) < bound || (Rank(c, s) == bound && Able(c, s, x) && x in round)
    ensures Rank(c, Run(c, s, round)) < bound
    decreases |round|
  {
    if round == [] {
    } else {
      var y := round[0];
      ReachableStep(c, s, y);
      TurnDescends(c, s, y);
      if Rank(c, s) == bound {
        TurnAdvances(c, s, x, y);
      }
      RoundAdvances(c, Step(c, s, y), x, bound, round[1..]);
    }
  }

  function Flatten(rounds: seq<seq<Actor>>): seq<Actor> {
    if rounds == [] then [] else rounds[0] + Flatten(rounds[1..])
  }

  lemma FinishedStays(c: Config, s: State, x: Actor)
    requires Inv(c, s) && Finished(s)
    ensures Step(c, s, x) == s
  {
  }

  lemma {:induction false} FinishedRun(c: Config, s: State, schedule: seq<Actor>)
    requires Inv(c, s) && Finished(s)
    ensures Run(c, s, schedule) == s
    decreases |schedule|
  {
    if schedule == [] {
    } else {
      FinishedStays(c, s, schedule[0]);
      FinishedRun(c, s, schedule[1..]);
    }
  }

  lemma SomeoneAble(c: Config, s: State) returns (x: Actor)
    requires ValidConfig(c) && Reachable(c, s) && !Finished(s)
    ensures Able(c, s, x)
  {
    ReachableHasInv(c, s);
    SomeoneAdvances(c, s);
    x :| Advances(c, s, x);
    AbleAdvances(c, s, x);
  }

  lemma {:induction false} RoundsFinish(c: Config, s: State, rounds: seq<seq<Actor>>)
    requires ValidConfig(c) && Reachable(c, s) && |rounds| >= Rank(c, s)
    requires forall r :: r in rounds ==> Fair(r)
    ensures Finished(Run(c, s, Flatten(rounds)))
    decreases |rounds|
  {
    if Finished(s) {
      ReachableHasInv(c, s);
      FinishedRun(c, s, Flatten(rounds));
    } else {
      var x := SomeoneAble(c, s);
      var round := rounds[0];
      assert Fair(round);
      TurnAdvances(c, s, x, x);
      RoundAdvances(c, s, x, Rank(c, s), round);
      ReachableRun(c, s, round);
      RunAppend(c, s, round, Flatten(rounds[1..]));
      RoundsFinish(c, Run(c, s, round), rounds[1..]);
    }
  }

  /** Every fair schedule finishes the exchange, within a number of rounds linear in the number
      of services: no placement of the targets and no interleaving can block it. */
  lemma ExchangeFinishes(c: Config, rounds: seq<seq<Actor>>)
    requires ValidConfig(c) && |rounds| >= 4 * Size(c.root) + 48
    requires forall r :: r in rounds ==> Fair(r)
    ensures var s := Run(c, Init(c), Flatten(rounds));
      Finished(s) && s.meet.secrets == Swapped(c)
  {
    StartReachable(c);
    FramesRankPush(Init(c).search.frames[0], []);
    assert Init(c).search.frames == [Init(c).search.frames[0]] + [];
    RoundsFinish(c, Init(c), rounds);
    ExchangeSwaps(c, Flatten(rounds));
  }

  // ----- the announcement -----------------------------------------------------------------

  lemma MarkersGone(m: Meeting)
    requires Markers(m, true, true) == {}
    ensures m.p1.Done? && m.p2.Done?
  {
    assert m.first !in Markers(m, true, true) && m.second !in Markers(m, true, true);
  }

  lemma MarkersRemoved(c: Config, s: State)
    requires TokenInv(c, s.search, false) && MarkerInv(c, s) && !s.mode.Manager? && Closing(s.mpc)
    ensures Found(c, s.search.log) == 2 && s.meet.p1.Done? && s.meet.p2.Done?
  {
    MarkersGone(s.meet);
  }

  lemma DoneMeansSwapped(c: Config, s: State)
    requires ValidConfig(c) && NamesInv(c, s.search.log, s.meet) && MeetingInv(c, s.meet)
    requires Found(c, s.search.log) == 2 && s.meet.p1.Done? && s.meet.p2.Done?
    ensures BothStored(s) && s.meet.secrets == Swapped(c)
  {
    StoredMeansSwapped(c, s);
  }

  lemma WatchEnds(c: Config, s: State)
    requires ValidConfig(c) && Inv(c, s) && !s.mode.Manager? && Closing(s.mpc)
    ensures BothStored(s) && s.meet.secrets == Swapped(c)
  {
    MarkersRemoved(c, s);
    DoneMeansSwapped(c, s);
  }

  /** A Manager that is no target leaves its wait, and announces the exchange, only after both
      targets have stored each other's secret. */
  lemma AnnouncedMeansStored(c: Config, schedule: seq<Actor>)
    requires ValidConfig(c) && !IsTarget(c, c.root.name) && Closing(Run(c, Init(c), schedule).mpc)
    ensures var s := Run(c, Init(c), schedule);
      BothStored(s) && s.meet.secrets == Swapped(c)
  {
    ReachableInv(c, schedule);
    WatchEnds(c, Run(c, Init(c), schedule));
  }

  /** The Manager as a target can end while the other one is about to read. */
  ghost predicate Lagging(c: Config, s: State) { Inv(c, s) && IsTarget(c, c.root.name) && Progress2(s.meet.p2) <= 6 }

  lemma WriterNotBlocked(fifos: map<string, Fifo>, linked: set<string>, p1: Pc, tm1: string, p2: Pc, tm2: string,
                         to1: string, to2: string, x1: string, x2: string)
    requires TransferInv(fifos, p1, tm1, p2, tm2, to1, to2, x1, x2)
    requires Progress2(p2) == 6 && Progress1(p1) < 8
    ensures FifoCall(fifos, linked, p1, tm1, to1, to2, x2, OpenW, Store).0.pc != p1
  {
  }

  lemma OthersGoOn(c: Config, s: State)
    requires Lagging(c, s) && Progress2(s.meet.p2) == 6 && !s.mpc.Finish?
    ensures Advances(c, s, FirstTarget) || Advances(c, s, TheManager)
  {
    var m := s.meet;
    if m.p1.Done? {
      ManagerAdvances(c, s);
    } else if m.p1.Store? {
      FirstMoving(c, s);
    } else {
      WriterNotBlocked(m.fifos, s.linked, m.p1, m.tm1, m.p2, m.tm2, Path(m.second, m.first), Path(m.first, m.second),
                       SecretBytes(c.secrets[m.second]), SecretBytes(c.secrets[m.first]));
      FirstMoving(c, s);
    }
  }

  lemma SecondStaysBehind(c: Config, s: State)
    requires Progress2(s.meet.p2) < 6 && !StepSecond(s).meet.p2.Crashed?
    ensures Progress2(StepSecond(s).meet.p2) <= 6
  {
  }

  lemma SecondUntouched(c: Config, s: State, x: Actor)
    requires x != SecondTarget
    ensures Step(c, s, x).meet.p2 == s.meet.p2 || Step(c, s, x).meet.p2.OpenW?
  {
    if x == FirstTarget {
      FirstHasEffect(c, s);
    }
  }

  lemma SecondNeverCrashes(c: Config, s: State)
    requires Inv(c, s)
    ensures !StepSecond(s).meet.p2.Crashed?
  {
    SecondKeepsInv(c, s);
    InvNotCrashed(c, StepSecond(s));
  }

  lemma SecondLags(c: Config, s: State, x: Actor)
    requires Progress2(s.meet.p2) <= 6 && (x == SecondTarget ==> Progress2(s.meet.p2) < 6)
    requires !StepSecond(s).meet.p2.Crashed?
    ensures Progress2(Step(c, s, x).meet.p2) <= 6
  {
    if x == SecondTarget {
      SecondStaysBehind(c, s);
    } else {
      SecondUntouched(c, s, x);
    }
  }

  lemma NextLaggingActor(c: Config, s: State) returns (x: Actor)
    requires Lagging(c, s) && !s.mpc.Finish?
    ensures Advances(c, s, x) && (x == SecondTarget ==> Progress2(s.meet.p2) < 6)
  {
    if Progress2(s.meet.p2) == 6 {
      OthersGoOn(c, s);
      x := if Advances(c, s, FirstTarget) then FirstTarget else TheManager;
    } else {
      SomeoneAdvances(c, s);
      x :| Advances(c, s, x);
    }
  }

  lemma {:induction false} LaggingFinish(c: Config, s: State) returns (schedule: seq<Actor>)
    requires ValidConfig(c) && Lagging(c, s)
    ensures var e := Run(c, s, schedule); e.mpc.Finish? && !BothStored(e)
    decreases Rank(c, s)
  {
    if s.mpc.Finish? {
      schedule := [];
    } else {
      var x := NextLaggingActor(c, s);
      StepKeepsInv(c, s, x);
      SecondNeverCrashes(c, s);
      SecondLags(c, s, x);
      var rest := LaggingFinish(c, Step(c, s, x));
      schedule := [x] + rest;
      assert schedule[1..] == rest;
    }
  }

  /** "Have exchanged" is true whenever it is announced exactly when the Manager is not itself a
      target: a Manager that is one can announce before the other has stored. */
  lemma AnnouncementTrueIff(c: Config)
    requires ValidConfig(c)
    ensures (forall schedule :: Run(c, Init(c), schedule).mpc.Finish? ==> BothStored(Run(c, Init(c), schedule)))
            <==> !IsTarget(c, c.root.name)
  {
    if IsTarget(c, c.root.name) {
      InitInv(c);
      var schedule := LaggingFinish(c, Init(c));
      assert Run(c, Init(c), schedule).mpc.Finish?;
    } else {
      forall schedule | Run(c, Init(c), schedule).mpc.Finish? ensures BothStored(Run(c, Init(c), schedule)) {
        AnnouncedMeansStored(c, schedule);
      }
    }
  }
}
