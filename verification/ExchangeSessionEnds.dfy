/** No session of exchanges gets stuck, and fair scheduling ends it. */
module ExchangeSessionEnds {
  import opened Trees
  import opened Exchange
  import opened ExchangeInvariant
  import opened ExchangeSteps
  import opened ExchangeProgress
  import opened ExchangeTheorems
  import opened ExchangeSessions
  import opened ExchangeOverlap
  import opened ExchangeSessionRuns

  // ----- the work left --------------------------------------------------------------------

  ghost function LagRank(lag: Lag): nat {
    match lag.pc
    case WaitR(_) => 5 case Read => 4 case CloseR => 3 case Store => 2 case Unlink => 1
    case _ => 0
  }

  ghost function LagWork(lags: map<string, Lag>, names: seq<string>): nat {
    if names == [] then 0 else (if names[0] in lags then LagRank(lags[names[0]]) else 0) + LagWork(lags, names[1..])
  }

  /** More than an exchange and one laggard can need. */
  ghost function PerCommand(root: Tree): nat { 4 * Size(root) + 54 }

  ghost function Work(ss: Session): nat {
    |ss.todo| * PerCommand(ss.c.root) + Rank(ss.c, Serial(ss)) + LagWork(ss.lags, Preorder(ss.c.root))
  }

  lemma {:induction false} LagWorkUpdate(lags: map<string, Lag>, lags': map<string, Lag>, names: seq<string>, n: string)
    requires NoDup(names) && forall k | k != n :: (k in lags' <==> k in lags) && (k in lags ==> lags'[k] == lags[k])
    ensures LagWork(lags', names) == LagWork(lags, names) +
      if n in names then (if n in lags' then LagRank(lags'[n]) else 0) - (if n in lags then LagRank(lags[n]) else 0)
      else 0
    decreases names
  {
    if names == [] {
    } else {
      LagWorkUpdate(lags, lags', names[1..], n);
      if names[0] == n {
        assert n !in names[1..];
      }
    }
  }

  lemma {:induction false} NoLagWork(names: seq<string>)
    ensures LagWork(map[], names) == 0
    decreases names
  {
    if names == [] {
    } else {
      NoLagWork(names[1..]);
    }
  }

  // ----- steps and the work ---------------------------------------------------------------

  /** The mover gets something done. */
  ghost predicate CanMove(ss: Session, x: Mover) {
    match x
    case Exchanger(y) => Able(ss.c, Serial(ss), y) && !(y.Token? && Blocked(ss))
    case Laggard(n) => n in ss.lags
    case Shell => ss.s.mpc.Finish? && ss.todo != []
  }

  lemma {:induction false} RunDescends(c: Config, s: State, moves: seq<Actor>)
    requires ValidConfig(c) && Inv(c, s)
    ensures DescendsTo(c, s, Run(c, s, moves))
    decreases |moves|
  {
    if moves == [] {
    } else {
      StepDescends(c, s, moves[0]);
      StepKeepsInv(c, s, moves[0]);
      RunDescends(c, Step(c, s, moves[0]), moves[1..]);
    }
  }

  /** A run that begins with an able actor lowers the rank. */
  lemma AbleRunAdvances(c: Config, s: State, moves: seq<Actor>)
    requires ValidConfig(c) && Inv(c, s) && moves != [] && Able(c, s, moves[0])
    ensures Rank(c, Run(c, s, moves)) < Rank(c, s)
  {
    AbleAdvances(c, s, moves[0]);
    StepKeepsInv(c, s, moves[0]);
    RunDescends(c, Step(c, s, moves[0]), moves[1..]);
  }

  lemma LagWorks(ss: Session, n: string)
    requires LagsOk(ss) && n in ss.lags
    ensures var lags' := StepLag(ss, n).lags;
      (if n in lags' then LagRank(lags'[n]) else 0) < LagRank(ss.lags[n])
  {
  }

  lemma IdleUnable(c: Config, s: State)
    ensures s.meet.p1.Idle? ==> !Able(c, s, FirstTarget)
    ensures s.meet.p2.Idle? ==> !Able(c, s, SecondTarget)
    ensures s.mpc.Searching? ==> !Able(c, s, TheManager)
  {
  }

  lemma AheadUnable(c: Config, v: State)
    requires ValidConfig(c) && Inv(c, Cover(c, v)) && Ahead(c, v)
    ensures !Able(c, Cover(c, v), FirstTarget)
  {
    AheadWaits(c, v);
    assert Cover(c, v).meet.p1 == Spin1 && Cover(c, v).markers == {v.meet.first};
  }

  lemma EarlyUnable(ss: Session)
    requires SessionInv(ss) && Found(ss.c, ss.s.search.log) < 2
    ensures var v := Serial(ss);
      !Able(ss.c, v, FirstTarget) && !Able(ss.c, v, SecondTarget) && !Able(ss.c, v, TheManager)
  {
    ReachableHasInv(ss.c, Serial(ss));
    EarlyIdle(ss);
    IdleUnable(ss.c, Serial(ss));
    if Ahead(ss.c, ss.s) {
      AheadUnable(ss.c, Veil(ss.s, ss.lags));
    }
  }

  lemma MovesWork(ss: Session, s': State, moves: seq<Actor>, x: Actor)
    requires SessionInv(ss) && Simulates(ss, s', moves) && (moves == [] || moves[0] == x)
    ensures DescendsTo(ss.c, Serial(ss), Serial(ss.(s := s')))
    ensures moves != [] && Able(ss.c, Serial(ss), x) ==> Rank(ss.c, Serial(ss.(s := s'))) < Rank(ss.c, Serial(ss))
  {
    ReachableHasInv(ss.c, Serial(ss));
    RunDescends(ss.c, Serial(ss), moves);
    if moves != [] && Able(ss.c, Serial(ss), x) {
      AbleRunAdvances(ss.c, Serial(ss), moves);
    }
  }

  lemma ActorWorks(ss: Session, x: Actor)
    requires SessionInv(ss)
    ensures DescendsTo(ss.c, Serial(ss), Serial(StepActor(ss, x)))
    ensures CanMove(ss, Exchanger(x)) ==> Rank(ss.c, Serial(StepActor(ss, x))) < Rank(ss.c, Serial(ss))
  {
    if !(x.Token? && Blocked(ss)) {
      var moves := ActorSimulates(ss, x);
      MovesWork(ss, StepActor(ss, x).s, moves, x);
      if moves == [] {
        EarlyUnable(ss);
      }
    }
  }

  /** Nothing has got done, and nobody has lost the chance to. */
  ghost predicate Quiet(ss: Session, ss': Session) {
    && ss'.c == ss.c && ss'.lags == ss.lags && ss'.todo == ss.todo
    && Calm(Serial(ss')) == Calm(Serial(ss))
  }

  lemma CanMoveStays(ss: Session, ss': Session, x: Mover)
    requires Quiet(ss, ss') && CanMove(ss, x)
    ensures CanMove(ss', x)
  {
    assert Calm(Serial(ss)).search == ss.s.search && Calm(Serial(ss')).search == ss'.s.search;
    match x
    case Exchanger(y) => AbleCalm(ss.c, Serial(ss), Serial(ss'), y);
    case Laggard(_) =>
    case Shell => assert Calm(Serial(ss)).mpc.Finish? && Calm(Serial(ss')).mpc.Finish?;
  }

  lemma InitRank(c: Config)
    ensures Rank(c, Init(c)) == 4 * Size(c.root) + 48
  {
    var f := Init(c).search.frames[0];
    FramesRankPush(f, []);
    assert Init(c).search.frames == [f] + [];
  }

  // ----- fair schedules -------------------------------------------------------------------

  /** Laggards are services of the tree. */
  lemma LagNames(ss: Session, n: string)
    requires SessionInv(ss) && n in ss.lags
    ensures n in Preorder(ss.c.root)
  {
    ReachableHasInv(ss.c, Serial(ss));
    assert n in Serial(ss).meet.secrets;
  }

  lemma LagMoveWorks(ss: Session, n: string)
    requires Shape(ss) && n in ss.lags && n in Preorder(ss.c.root)
    ensures Work(StepLag(ss, n)) < Work(ss)
  {
    LagKeepsVeil(ss, n);
    LagWorks(ss, n);
    LagWorkUpdate(ss.lags, StepLag(ss, n).lags, Preorder(ss.c.root), n);
  }

  lemma NewLagWork(lags: map<string, Lag>, n: string, lag: Lag, names: seq<string>)
    requires NoDup(names) && n !in lags
    ensures LagWork(lags[n := lag], names) <= LagWork(lags, names) + 5
  {
    LagWorkUpdate(lags, lags[n := lag], names, n);
  }

  lemma OneLess(n: nat, k: nat)
    requires n > 0
    ensures n * k == (n - 1) * k + k
  {
  }

  lemma ShellCounts(ss: Session)
    requires ss.todo != [] && ss.c.a in ss.c.secrets && ss.c.b in ss.c.secrets
    requires Serial(NextCommand(ss)) == Init(NextCommand(ss).c)
    requires LagWork(LagsNow(ss), Preorder(ss.c.root)) <= LagWork(ss.lags, Preorder(ss.c.root)) + 5
    ensures Work(NextCommand(ss)) < Work(ss)
  {
    InitRank(NextCommand(ss).c);
    OneLess(|ss.todo|, PerCommand(ss.c.root));
  }

  lemma ShellWorks(ss: Session)
    requires SessionInv(ss) && ss.s.mpc.Finish? && ss.todo != []
    requires ValidConfig(Config(ss.c.root, ss.todo[0].a, ss.todo[0].b, Swapped(ss.c)))
    ensures Work(NextCommand(ss)) < Work(ss)
  {
    var m := ss.s.meet;
    NextIsInit(ss);
    if !m.p2.Done? {
      SecondLeft(ss);
      NewLagWork(ss.lags, m.second, Lag(m.p2, m.tm2, m.fifos[Path(m.first, m.second)]), Preorder(ss.c.root));
    }
    ShellCounts(ss);
  }

  ghost predicate WorksOrWaits(ss: Session, ss': Session, able: bool) {
    && (Work(ss') < Work(ss) || (Work(ss') == Work(ss) && Quiet(ss, ss')))
    && (able ==> Work(ss') < Work(ss))
  }

  lemma ActorCounts(ss: Session, ss': Session, able: bool)
    requires ss'.c == ss.c && ss'.lags == ss.lags && ss'.todo == ss.todo
    requires DescendsTo(ss.c, Serial(ss), Serial(ss'))
    requires able ==> Rank(ss.c, Serial(ss')) < Rank(ss.c, Serial(ss))
    ensures WorksOrWaits(ss, ss', able)
  {
  }

  lemma Worked(ss: Session, ss': Session, able: bool)
    requires Work(ss') < Work(ss)
    ensures WorksOrWaits(ss, ss', able)
  {
  }

  lemma Waited(ss: Session)
    ensures WorksOrWaits(ss, ss, false)
  {
  }

  lemma LaggardMoveWorks(ss: Session, n: string)
    requires SessionInv(ss)
    ensures WorksOrWaits(ss, Move(ss, Laggard(n)), n in ss.lags)
  {
    if n in ss.lags {
      LagNames(ss, n);
      LagMoveWorks(ss, n);
      Worked(ss, StepLag(ss, n), true);
    } else {
      Waited(ss);
    }
  }

  lemma ShellMoveWorks(ss: Session)
    requires SessionInv(ss)
    requires ss.todo == [] || ValidConfig(Config(ss.c.root, ss.todo[0].a, ss.todo[0].b, Swapped(ss.c)))
    ensures WorksOrWaits(ss, Move(ss, Shell), CanMove(ss, Shell))
  {
    if ss.s.mpc.Finish? && ss.todo != [] {
      ShellWorks(ss);
      Worked(ss, NextCommand(ss), true);
    } else {
      Waited(ss);
    }
  }

  // ----- reachable states -----------------------------------------------------------------

  /** A state that some schedule leads to. */
  ghost predicate Reached(ss: Session, root: Tree, secrets: map<string, nat>, commands: seq<Pair>)
    requires commands != []
  {
    exists schedule :: Moves(Begin(root, secrets, commands), schedule) == ss
  }

  lemma ReachedInv(ss: Session, root: Tree, secrets: map<string, nat>, commands: seq<Pair>)
    requires ValidSession(root, secrets, commands) && Reached(ss, root, secrets, commands)
    ensures SessionInv(ss) && History(ss, root, secrets, commands)
  {
    var schedule :| Moves(Begin(root, secrets, commands), schedule) == ss;
    BeginInv(root, secrets, commands);
    MovesKeepInv(Begin(root, secrets, commands), schedule, root, secrets, commands);
  }

  lemma {:induction false} MovesAppend(ss: Session, left: seq<Mover>, right: seq<Mover>)
    ensures Moves(ss, left + right) == Moves(Moves(ss, left), right)
    decreases |left|
  {
    if left == [] {
      assert left + right == right;
    } else {
      assert (left + right)[1..] == left[1..] + right;
      MovesAppend(Move(ss, left[0]), left[1..], right);
    }
  }

  lemma ReachedMoves(ss: Session, more: seq<Mover>, root: Tree, secrets: map<string, nat>, commands: seq<Pair>)
    requires commands != [] && Reached(ss, root, secrets, commands)
    ensures Reached(Moves(ss, more), root, secrets, commands)
  {
    var schedule :| Moves(Begin(root, secrets, commands), schedule) == ss;
    MovesAppend(Begin(root, secrets, commands), schedule, more);
  }

  lemma MovesOne(ss: Session, x: Mover)
    ensures Moves(ss, [x]) == Move(ss, x)
  {
    assert [x][1..] == [];
  }

  lemma NextValid(ss: Session, root: Tree, secrets: map<string, nat>, commands: seq<Pair>)
    requires ValidConfig(ss.c) && ValidSession(root, secrets, commands) && History(ss, root, secrets, commands)
    ensures ss.todo == [] || ValidConfig(Config(ss.c.root, ss.todo[0].a, ss.todo[0].b, Swapped(ss.c)))
  {
    if ss.todo != [] {
      NextKeepsHistory(ss, root, secrets, commands);
    }
  }

  lemma ReachedActorWorks(ss: Session, x: Actor, root: Tree, secrets: map<string, nat>, commands: seq<Pair>)
    requires ValidSession(root, secrets, commands) && Reached(ss, root, secrets, commands)
    ensures DescendsTo(ss.c, Serial(ss), Serial(StepActor(ss, x)))
    ensures CanMove(ss, Exchanger(x)) ==> Rank(ss.c, Serial(StepActor(ss, x))) < Rank(ss.c, Serial(ss))
  {
    ReachedInv(ss, root, secrets, commands);
    ActorWorks(ss, x);
  }

  lemma ActorMoveWorks(ss: Session, x: Actor, root: Tree, secrets: map<string, nat>, commands: seq<Pair>)
    requires ValidSession(root, secrets, commands) && Reached(ss, root, secrets, commands)
    ensures WorksOrWaits(ss, StepActor(ss, x), CanMove(ss, Exchanger(x)))
  {
    ReachedActorWorks(ss, x, root, secrets, commands);
    ActorCounts(ss, StepActor(ss, x), CanMove(ss, Exchanger(x)));
  }

  /** Every move gets something done, or leaves everybody's chances alone. */
  lemma MoveDescends(ss: Session, x: Mover, root: Tree, secrets: map<string, nat>, commands: seq<Pair>)
    requires ValidSession(root, secrets, commands) && Reached(ss, root, secrets, commands)
    ensures WorksOrWaits(ss, Move(ss, x), CanMove(ss, x))
  {
    match x
    case Exchanger(y) => ActorMoveWorks(ss, y, root, secrets, commands);
    case Laggard(n) =>
      ReachedInv(ss, root, secrets, commands);
      LaggardMoveWorks(ss, n);
    case Shell =>
      ReachedInv(ss, root, secrets, commands);
      NextValid(ss, root, secrets, commands);
      ShellMoveWorks(ss);
  }

  /** Deadlock freedom: until everything is over somebody can move. */
  lemma SomeoneMoves(ss: Session) returns (x: Mover)
    requires SessionInv(ss) && !Over(ss)
    ensures CanMove(ss, x) && (x.Laggard? ==> x.name in Preorder(ss.c.root))
  {
    if ss.lags != map[] {
      var n :| n in ss.lags;
      LagNames(ss, n);
      x := Laggard(n);
    } else if !Finished(Serial(ss)) {
      var y := SomeoneAble(ss.c, Serial(ss));
      x := Exchanger(y);
    } else {
      x := Shell;
    }
  }

  /** A round gives every actor, every service and the Manager's command loop a turn. */
  ghost predicate FairRound(round: seq<Mover>, root: Tree) {
    && (forall x: Actor :: Exchanger(x) in round) && Shell in round
    && forall n | n in Preorder(root) :: Laggard(n) in round
  }

  lemma FairHas(round: seq<Mover>, root: Tree, x: Mover)
    requires FairRound(round, root) && (x.Laggard? ==> x.name in Preorder(root))
    ensures x in round
  {
  }

  lemma {:induction false} RoundWorks(ss: Session, x: Mover, bound: nat, round: seq<Mover>,
                                      root: Tree, secrets: map<string, nat>, commands: seq<Pair>)
    requires ValidSession(root, secrets, commands) && Reached(ss, root, secrets, commands)
    requires Work(ss) < bound || (Work(ss) == bound && CanMove(ss, x) && x in round)
    ensures Work(Moves(ss, round)) < bound
    decreases |round|
  {
    if round == [] {
    } else {
      var ss' := Move(ss, round[0]);
      MoveDescends(ss, round[0], root, secrets, commands);
      ReachedMoves(ss, [round[0]], root, secrets, commands);
      MovesOne(ss, round[0]);
      if Work(ss') == bound {
        CanMoveStays(ss, ss', x);
      }
      RoundWorks(ss', x, bound, round[1..], root, secrets, commands);
    }
  }

  function Rounds(rounds: seq<seq<Mover>>): seq<Mover> {
    if rounds == [] then [] else rounds[0] + Rounds(rounds[1..])
  }

  lemma IdleAtEnd(c: Config, s: State)
    requires Inv(c, s) && Finished(s)
    ensures StepToken(c, s) == s && StepFirst(c, Knowing(c, s)) == s && StepSecond(s) == s && StepManager(c, s) == s
  {
    assert s.meet.second == Partner(c, s.meet.first);
    assert Knowing(c, s) == s;
  }

  lemma OverStays(ss: Session, x: Mover)
    requires SessionInv(ss) && Over(ss)
    ensures Move(ss, x) == ss
  {
    NoVeil(ss);
    IdleAtEnd(ss.c, ss.s);
  }

  lemma {:induction false} OverMoves(ss: Session, schedule: seq<Mover>,
                                     root: Tree, secrets: map<string, nat>, commands: seq<Pair>)
    requires ValidSession(root, secrets, commands) && Reached(ss, root, secrets, commands) && Over(ss)
    ensures Moves(ss, schedule) == ss
    decreases |schedule|
  {
    if schedule == [] {
    } else {
      ReachedInv(ss, root, secrets, commands);
      OverStays(ss, schedule[0]);
      OverMoves(ss, schedule[1..], root, secrets, commands);
    }
  }

  lemma MoverOf(ss: Session, root: Tree, secrets: map<string, nat>, commands: seq<Pair>) returns (x: Mover)
    requires ValidSession(root, secrets, commands) && Reached(ss, root, secrets, commands) && !Over(ss)
    ensures CanMove(ss, x) && (x.Laggard? ==> x.name in Preorder(root))
  {
    ReachedInv(ss, root, secrets, commands);
    x := SomeoneMoves(ss);
  }

  lemma {:induction false} RoundsEnd(ss: Session, rounds: seq<seq<Mover>>,
                                     root: Tree, secrets: map<string, nat>, commands: seq<Pair>)
    requires ValidSession(root, secrets, commands) && Reached(ss, root, secrets, commands)
    requires |rounds| >= Work(ss) && forall r :: r in rounds ==> FairRound(r, root)
    ensures Over(Moves(ss, Rounds(rounds)))
    decreases |rounds|
  {
    if Over(ss) {
      OverMoves(ss, Rounds(rounds), root, secrets, commands);
    } else {
      var x := MoverOf(ss, root, secrets, commands);
      MoveDescends(ss, x, root, secrets, commands);
      var round := rounds[0];
      FairHas(round, root, x);
      RoundWorks(ss, x, Work(ss), round, root, secrets, commands);
      ReachedMoves(ss, round, root, secrets, commands);
      MovesAppend(ss, round, Rounds(rounds[1..]));
      RoundsEnd(Moves(ss, round), rounds[1..], root, secrets, commands);
    }
  }

  lemma BeginWork(root: Tree, secrets: map<string, nat>, commands: seq<Pair>)
    requires ValidSession(root, secrets, commands)
    ensures Work(Begin(root, secrets, commands)) <= |commands| * (4 * Size(root) + 54)
  {
    var ss := Begin(root, secrets, commands);
    BeginIsInit(root, secrets, commands);
    InitRank(ss.c);
    NoLagWork(Preorder(root));
    OneLess(|commands|, PerCommand(root));
  }

  /** Every fair schedule ends a session, within a number of rounds linear in commands times services,
      with the composed secrets. */
  lemma SessionEnds(root: Tree, secrets: map<string, nat>, commands: seq<Pair>, rounds: seq<seq<Mover>>)
    requires ValidSession(root, secrets, commands) && |rounds| >= |commands| * (4 * Size(root) + 54)
    requires forall r :: r in rounds ==> FairRound(r, root)
    ensures var ss := Moves(Begin(root, secrets, commands), Rounds(rounds));
      Over(ss) && ss.s.meet.secrets == Composed(secrets, commands)
  {
    var ss := Begin(root, secrets, commands);
    assert Moves(ss, []) == ss;
    BeginWork(root, secrets, commands);
    RoundsEnd(ss, rounds, root, secrets, commands);
    SessionComposes(root, secrets, commands, Rounds(rounds));
  }
}
