/** What a session of exchanges guarantees, for every tree, every list of commands and every
    interleaving, laggards included. */
module ExchangeSessionRuns {
  import opened Trees
  import opened Text
  import opened Exchange
  import opened ExchangeInvariant
  import opened ExchangeSteps
  import opened ExchangeTheorems
  import opened ExchangeSessions
  import opened ExchangeOverlap

  // ----- the next command -----------------------------------------------------------------

  lemma SecondReads(m: Meeting)
    requires InStep(Progress1(m.p1), Progress2(m.p2)) && m.p1.Done?
    ensures 5 <= Progress2(m.p2) <= 9
  {
  }

  lemma FinishMarkers(c: Config, s: State)
    requires ModeInv(c, s) && MarkerInv(c, s) && NamesInv(c, s.search.log, s.meet) && s.mpc.Finish?
    requires s.mode.Manager? && Found(c, s.search.log) == 2
    ensures s.meet.p1.Done? && s.markers == (if s.meet.p2.Done? then {} else {s.meet.second})
    ensures s.meet.second != c.root.name
  {
  }

  /** When the Manager has finished, a second target that is not done has its secret before it. */
  lemma FinishFacts(c: Config, s: State)
    requires ValidConfig(c) && Inv(c, s) && s.mpc.Finish?
    ensures var m := s.meet; Found(c, s.search.log) == 2 && m.p1.Done? && 5 <= Progress2(m.p2) <= 9
    ensures s.markers == (if s.meet.p2.Done? then {} else {s.meet.second})
    ensures s.meet.second != c.root.name || s.meet.p2.Done?
  {
    if !s.mode.Manager? {
      MarkersRemoved(c, s);
    } else {
      FinishMarkers(c, s);
    }
    SecondReads(s.meet);
  }

  lemma LagBegins(c: Config, m: Meeting)
    requires ValidConfig(c) && MeetingInv(c, m) && m.p1.Done? && 5 <= Progress2(m.p2) <= 9 && !m.p2.Done?
    ensures Path(m.first, m.second) in m.fifos
    ensures var lag := Lag(m.p2, m.tm2, m.fifos[Path(m.first, m.second)]);
      && LagOk(lag) && (Owes(lag) <==> Progress2(m.p2) < 9) && (Owes(lag) ==> Due(lag) == c.secrets[m.first])
  {
    MessageOk(c.secrets[m.first]);
  }

  lemma FinishSecrets(c: Config, m: Meeting)
    requires ValidConfig(c) && SecretsInv(c, m) && IsTarget(c, m.first) && IsTarget(c, m.second) && m.p1.Done?
    ensures Progress2(m.p2) == 9 ==> m.secrets == Swapped(c)
    ensures m.secrets[m.second := c.secrets[m.first]] == Swapped(c)
  {
  }

  lemma SettledMore(secrets: map<string, nat>, lags: map<string, Lag>, n: string, lag: Lag)
    requires n !in lags && n in secrets
    ensures Settled(secrets, lags[n := lag]) ==
      if Owes(lag) then Settled(secrets, lags)[n := Due(lag)] else Settled(secrets, lags)
  {
  }

  /** The lists of laggards and markers when the next command is taken. */
  ghost predicate Handover(ss: Session, lags': map<string, Lag>)
    requires ValidConfig(ss.c)
  {
    && ss.s.markers - lags'.Keys == {} && Settled(ss.s.meet.secrets, lags') == Swapped(ss.c)
    && Waiters(lags', ss.c.root.name, ss.s.markers, ss.s.meet.secrets)
  }

  ghost predicate Waiters(lags: map<string, Lag>, root: string, markers: set<string>, secrets: map<string, nat>) {
    forall n | n in lags :: LagOk(lags[n]) && n != root && n in markers && n in secrets
  }

  lemma OldLags(ss: Session)
    requires SessionInv(ss)
    ensures Waiters(ss.lags, ss.c.root.name, ss.s.markers, ss.s.meet.secrets)
  {
    ReachableHasInv(ss.c, Serial(ss));
    assert ss.s.search.log[0] == ss.c.root.name;
  }

  lemma SecondDone(c: Config, s: State)
    requires ValidConfig(c) && Inv(c, s) && s.mpc.Finish? && s.meet.p2.Done?
    ensures Found(c, s.search.log) == 2 && s.markers == {} && s.meet.secrets == Swapped(c)
  {
    FinishFacts(c, s);
    DoneMeansSwapped(c, s);
  }

  lemma SerialParts(ss: Session)
    requires Found(ss.c, ss.s.search.log) >= 2
    ensures Serial(ss).markers == ss.s.markers - ss.lags.Keys
    ensures Serial(ss).meet == ss.s.meet.(secrets := Settled(ss.s.meet.secrets, ss.lags))
  {
  }

  lemma AllStored(ss: Session)
    requires SessionInv(ss) && ss.s.mpc.Finish? && ss.s.meet.p2.Done?
    ensures ss.s.markers - ss.lags.Keys == {} && Settled(ss.s.meet.secrets, ss.lags) == Swapped(ss.c)
  {
    ReachableHasInv(ss.c, Serial(ss));
    SecondDone(ss.c, Serial(ss));
    SerialParts(ss);
  }

  lemma AllDone(ss: Session)
    requires SessionInv(ss) && ss.s.mpc.Finish? && ss.s.meet.p2.Done?
    ensures Handover(ss, ss.lags)
  {
    AllStored(ss);
    OldLags(ss);
  }

  /** Facts about a second target that is not done. */
  lemma SecondLeft(ss: Session)
    requires SessionInv(ss) && ss.s.mpc.Finish? && !ss.s.meet.p2.Done?
    ensures var m := ss.s.meet; Path(m.first, m.second) in m.fifos && m.second !in ss.lags && m.second in m.secrets
    ensures ss.s.meet.second != ss.c.root.name && ss.s.markers - ss.lags.Keys == {ss.s.meet.second}
    ensures var m := ss.s.meet; var lag := Lag(m.p2, m.tm2, m.fifos[Path(m.first, m.second)]);
      && LagOk(lag)
      && Swapped(ss.c)
         == if Owes(lag) then Settled(m.secrets, ss.lags)[m.second := Due(lag)] else Settled(m.secrets, ss.lags)
  {
    ReachableHasInv(ss.c, Serial(ss));
    var v := Serial(ss);
    FinishFacts(ss.c, v);
    MetNoLaggards(ss);
    LagBegins(ss.c, v.meet);
    FinishSecrets(ss.c, v.meet);
    assert v.meet == ss.s.meet.(secrets := Settled(ss.s.meet.secrets, ss.lags));
  }

  lemma OneMore(ss: Session, n: string, lag: Lag)
    requires ValidConfig(ss.c) && Waiters(ss.lags, ss.c.root.name, ss.s.markers, ss.s.meet.secrets)
    requires n !in ss.lags && n in ss.s.meet.secrets && n != ss.c.root.name && ss.s.markers - ss.lags.Keys == {n}
    requires LagOk(lag)
    requires Swapped(ss.c)
      == if Owes(lag) then Settled(ss.s.meet.secrets, ss.lags)[n := Due(lag)] else Settled(ss.s.meet.secrets, ss.lags)
    ensures Handover(ss, ss.lags[n := lag])
  {
    SettledMore(ss.s.meet.secrets, ss.lags, n, lag);
    assert n in ss.s.markers - ss.lags.Keys;
    assert ss.lags[n := lag].Keys == ss.lags.Keys + {n};
    assert ss.s.markers - (ss.lags.Keys + {n}) == (ss.s.markers - ss.lags.Keys) - {n};
  }

  lemma OneLeft(ss: Session)
    requires SessionInv(ss) && ss.s.mpc.Finish? && !ss.s.meet.p2.Done?
    ensures Handover(ss, LagsNow(ss))
  {
    var m := ss.s.meet;
    SecondLeft(ss);
    OldLags(ss);
    OneMore(ss, m.second, Lag(m.p2, m.tm2, m.fifos[Path(m.first, m.second)]));
  }

  lemma InitVeiled(c: Config, markers: set<string>, secrets: map<string, nat>, lags: map<string, Lag>)
    requires ValidConfig(c) && markers - lags.Keys == {} && Settled(secrets, lags) == c.secrets
    ensures var s := Init(c).(markers := markers, meet := Init(c).meet.(secrets := secrets));
      Cover(c, Veil(s, lags)) == Init(c) && !Ahead(c, s)
  {
  }

  lemma NextIsInit(ss: Session)
    requires SessionInv(ss) && ss.s.mpc.Finish? && ss.todo != []
    requires ValidConfig(Config(ss.c.root, ss.todo[0].a, ss.todo[0].b, Swapped(ss.c)))
    ensures Shape(NextCommand(ss)) && Serial(NextCommand(ss)) == Init(NextCommand(ss).c)
  {
    if ss.s.meet.p2.Done? {
      AllDone(ss);
    } else {
      OneLeft(ss);
    }
    InitVeiled(NextCommand(ss).c, ss.s.markers, ss.s.meet.secrets, LagsNow(ss));
  }

  lemma NextKeepsInv(ss: Session)
    requires SessionInv(ss) && ss.s.mpc.Finish? && ss.todo != []
    requires ValidConfig(Config(ss.c.root, ss.todo[0].a, ss.todo[0].b, Swapped(ss.c)))
    ensures SessionInv(NextCommand(ss))
  {
    NextIsInit(ss);
    StartReachable(NextCommand(ss).c);
  }

  // ----- whole sessions -------------------------------------------------------------------

  lemma ActorKeepsInv(ss: Session, x: Actor)
    requires SessionInv(ss)
    ensures SessionInv(StepActor(ss, x))
  {
    if !(x.Token? && Blocked(ss)) {
      var moves := ActorSimulates(ss, x);
      ReachableRun(ss.c, Serial(ss), moves);
    }
  }

  lemma LagKeepsInv(ss: Session, n: string)
    requires SessionInv(ss) && n in ss.lags
    ensures SessionInv(StepLag(ss, n)) && Serial(StepLag(ss, n)) == Serial(ss)
  {
    LagKeepsVeil(ss, n);
  }

  /** The secrets after a list of exchanges, one after the other. */
  function Composed(secrets: map<string, nat>, pairs: seq<Pair>): map<string, nat> {
    if pairs == [] then secrets
    else
      var before, p := Composed(secrets, pairs[..|pairs| - 1]), pairs[|pairs| - 1];
      if p.a in before && p.b in before then before[p.a := before[p.b]][p.b := before[p.a]] else before
  }

  /** One exchange after the other, the first one first. */
  lemma {:induction false} ComposedFirst(secrets: map<string, nat>, p: Pair, rest: seq<Pair>)
    requires p.a in secrets && p.b in secrets
    ensures Composed(secrets, []) == secrets
    ensures Composed(secrets, [p] + rest) == Composed(secrets[p.a := secrets[p.b]][p.b := secrets[p.a]], rest)
    decreases |rest|
  {
    var all, n := [p] + rest, |rest|;
    if rest == [] {
      assert all == [p] && [p][..0] == [];
    } else {
      ComposedFirst(secrets, p, rest[..n - 1]);
      assert all[..n] == [p] + rest[..n - 1] && all[n] == rest[n - 1];
    }
  }

  /** Distinct service names, secrets from rand(), and commands that name two services each. */
  ghost predicate ValidSession(root: Tree, secrets: map<string, nat>, commands: seq<Pair>) {
    && commands != []
    && forall k | 0 <= k < |commands| :: ValidConfig(Config(root, commands[k].a, commands[k].b, secrets))
  }

  /** Where in its list of commands a session is. */
  ghost predicate History(ss: Session, root: Tree, secrets: map<string, nat>, commands: seq<Pair>) {
    && ss.c.root == root && ss.c.secrets == Composed(secrets, ss.done)
    && ss.done + [Pair(ss.c.a, ss.c.b)] + ss.todo == commands
  }

  lemma ComposedMore(secrets: map<string, nat>, done: seq<Pair>, c: Config)
    requires c.secrets == Composed(secrets, done) && c.a in c.secrets && c.b in c.secrets
    ensures Composed(secrets, done + [Pair(c.a, c.b)]) == Swapped(c)
  {
    assert (done + [Pair(c.a, c.b)])[..|done|] == done;
  }

  lemma SwappedValid(c: Config, a: string, b: string, secrets: map<string, nat>)
    requires ValidConfig(c) && ValidConfig(Config(c.root, a, b, secrets))
    ensures ValidConfig(Config(c.root, a, b, Swapped(c)))
  {
  }

  lemma NextKeepsHistory(ss: Session, root: Tree, secrets: map<string, nat>, commands: seq<Pair>)
    requires ValidConfig(ss.c) && ss.todo != []
    requires ValidSession(root, secrets, commands) && History(ss, root, secrets, commands)
    ensures ValidConfig(Config(root, ss.todo[0].a, ss.todo[0].b, Swapped(ss.c)))
    ensures History(NextCommand(ss), root, secrets, commands)
  {
    var next := ss.todo[0];
    assert commands[|ss.done| + 1] == next;
    SwappedValid(ss.c, next.a, next.b, secrets);
    ComposedMore(secrets, ss.done, ss.c);
    assert ss.done + [Pair(ss.c.a, ss.c.b)] + [next] + ss.todo[1..] == commands;
  }

  lemma HistoryStays(ss: Session, x: Mover, root: Tree, secrets: map<string, nat>, commands: seq<Pair>)
    requires History(ss, root, secrets, commands) && !x.Shell?
    ensures History(Move(ss, x), root, secrets, commands)
  {
  }

  lemma ShellKeepsInv(ss: Session, root: Tree, secrets: map<string, nat>, commands: seq<Pair>)
    requires SessionInv(ss) && ValidSession(root, secrets, commands) && History(ss, root, secrets, commands)
    requires ss.s.mpc.Finish? && ss.todo != []
    ensures SessionInv(NextCommand(ss)) && History(NextCommand(ss), root, secrets, commands)
  {
    NextKeepsHistory(ss, root, secrets, commands);
    NextKeepsInv(ss);
  }

  lemma MoveKeepsInv(ss: Session, x: Mover, root: Tree, secrets: map<string, nat>, commands: seq<Pair>)
    requires SessionInv(ss) && ValidSession(root, secrets, commands) && History(ss, root, secrets, commands)
    ensures SessionInv(Move(ss, x)) && History(Move(ss, x), root, secrets, commands)
  {
    if x.Shell? {
      if ss.s.mpc.Finish? && ss.todo != [] {
        ShellKeepsInv(ss, root, secrets, commands);
      }
    } else {
      HistoryStays(ss, x, root, secrets, commands);
      if x.Exchanger? {
        ActorKeepsInv(ss, x.x);
      } else if x.name in ss.lags {
        LagKeepsInv(ss, x.name);
      }
    }
  }

  lemma {:induction false} MovesKeepInv(ss: Session, schedule: seq<Mover>,
                                        root: Tree, secrets: map<string, nat>, commands: seq<Pair>)
    requires SessionInv(ss) && ValidSession(root, secrets, commands) && History(ss, root, secrets, commands)
    ensures SessionInv(Moves(ss, schedule)) && History(Moves(ss, schedule), root, secrets, commands)
    decreases |schedule|
  {
    if schedule == [] {
    } else {
      MoveKeepsInv(ss, schedule[0], root, secrets, commands);
      MovesKeepInv(Move(ss, schedule[0]), schedule[1..], root, secrets, commands);
    }
  }

  lemma BeginIsInit(root: Tree, secrets: map<string, nat>, commands: seq<Pair>)
    requires ValidSession(root, secrets, commands)
    ensures var ss := Begin(root, secrets, commands); Shape(ss) && Serial(ss) == Init(ss.c)
  {
    var ss := Begin(root, secrets, commands);
    assert ValidConfig(Config(root, commands[0].a, commands[0].b, secrets));
    assert Settled(secrets, map[]) == secrets;
    InitVeiled(ss.c, {}, secrets, map[]);
  }

  lemma BeginInv(root: Tree, secrets: map<string, nat>, commands: seq<Pair>)
    requires ValidSession(root, secrets, commands)
    ensures var ss := Begin(root, secrets, commands); SessionInv(ss) && History(ss, root, secrets, commands)
  {
    BeginIsInit(root, secrets, commands);
    StartReachable(Begin(root, secrets, commands).c);
    assert [] + [commands[0]] + commands[1..] == commands;
  }

  lemma NoLags(s: State)
    ensures Veil(s, map[]) == s
  {
    assert Settled(s.meet.secrets, map[]) == s.meet.secrets;
  }

  lemma NoVeil(ss: Session)
    requires SessionInv(ss) && Over(ss)
    ensures Inv(ss.c, ss.s)
  {
    ReachableHasInv(ss.c, Serial(ss));
    NoLags(ss.s);
    FinishFacts(ss.c, Serial(ss));
  }

  lemma LastSwap(ss: Session, root: Tree, secrets: map<string, nat>, commands: seq<Pair>)
    requires History(ss, root, secrets, commands) && ss.todo == [] && ss.c.a in ss.c.secrets && ss.c.b in ss.c.secrets
    ensures Swapped(ss.c) == Composed(secrets, commands)
  {
    ComposedMore(secrets, ss.done, ss.c);
    var done := ss.done + [Pair(ss.c.a, ss.c.b)];
    assert done == done + ss.todo == commands;
  }

  /** At the end of a session every service has the secret that the exchanges, carried out one after
      the other, give it, however they have overlapped; no marker and no FIFO is left. */
  lemma SessionComposes(root: Tree, secrets: map<string, nat>, commands: seq<Pair>, schedule: seq<Mover>)
    requires ValidSession(root, secrets, commands) && Over(Moves(Begin(root, secrets, commands), schedule))
    ensures var s := Moves(Begin(root, secrets, commands), schedule).s;
      s.meet.secrets == Composed(secrets, commands) && s.markers == {} && s.linked == {}
    ensures var ss := Moves(Begin(root, secrets, commands), schedule);
      ss.done + [Pair(ss.c.a, ss.c.b)] == commands
  {
    var ss := Moves(Begin(root, secrets, commands), schedule);
    BeginInv(root, secrets, commands);
    MovesKeepInv(Begin(root, secrets, commands), schedule, root, secrets, commands);
    NoVeil(ss);
    EndState(ss.c, ss.s);
    LastSwap(ss, root, secrets, commands);
    assert ss.done + [Pair(ss.c.a, ss.c.b)] + [] == ss.done + [Pair(ss.c.a, ss.c.b)];
  }

  /** Whoever has still to store a secret from an earlier exchange has its marker file, and has not taken
      the current command. */
  lemma LaggardsKeepMarkers(root: Tree, secrets: map<string, nat>, commands: seq<Pair>, schedule: seq<Mover>, n: string)
    requires ValidSession(root, secrets, commands)
    requires n in Moves(Begin(root, secrets, commands), schedule).lags
    ensures var s := Moves(Begin(root, secrets, commands), schedule).s; n in s.markers && n !in s.search.log
  {
    BeginInv(root, secrets, commands);
    MovesKeepInv(Begin(root, secrets, commands), schedule, root, secrets, commands);
  }

  // ----- exchanges do overlap -------------------------------------------------------------

  function Exchangers(schedule: seq<Actor>): seq<Mover> {
    if schedule == [] then [] else [Exchanger(schedule[0])] + Exchangers(schedule[1..])
  }

  lemma ManagerKnows(c: Config, s: State)
    requires Inv(c, s) && IsTarget(c, c.root.name)
    ensures Knowing(c, s) == s
  {
    if !s.meet.p1.Idle? {
      assert s.meet.second == Partner(c, s.meet.first);
    }
  }

  lemma PlainMove(ss: Session, before: seq<Actor>, x: Actor)
    requires ValidConfig(ss.c) && ss.s == Run(ss.c, Init(ss.c), before) && ss.lags == map[]
    requires IsTarget(ss.c, ss.c.root.name)
    ensures Move(ss, Exchanger(x)) == ss.(s := Step(ss.c, ss.s, x))
    ensures Step(ss.c, ss.s, x) == Run(ss.c, Init(ss.c), before + [x])
  {
    ReachableInv(ss.c, before);
    ManagerKnows(ss.c, ss.s);
    RunAppend(ss.c, Init(ss.c), before, [x]);
    RunOne(ss.c, ss.s, x);
  }

  /** Without laggards and with the Manager as a target, a session moves like its exchange. */
  lemma {:induction false} PlainMoves(ss: Session, before: seq<Actor>, schedule: seq<Actor>)
    requires ValidConfig(ss.c) && ss.s == Run(ss.c, Init(ss.c), before) && ss.lags == map[]
    requires IsTarget(ss.c, ss.c.root.name)
    ensures Moves(ss, Exchangers(schedule)) == ss.(s := Run(ss.c, ss.s, schedule))
    decreases |schedule|
  {
    if schedule == [] {
    } else {
      var moves := Exchangers(schedule);
      assert moves[0] == Exchanger(schedule[0]) && moves[1..] == Exchangers(schedule[1..]);
      PlainMove(ss, before, schedule[0]);
      PlainMoves(ss.(s := Step(ss.c, ss.s, schedule[0])), before + [schedule[0]], schedule[1..]);
    }
  }

  lemma {:induction false} MovesThenShell(ss: Session, schedule: seq<Mover>)
    ensures Moves(ss, schedule + [Shell]) == Move(Moves(ss, schedule), Shell)
    decreases |schedule|
  {
    if schedule == [] {
      assert schedule + [Shell] == [Shell] && [Shell][1..] == [];
    } else {
      assert (schedule + [Shell])[1..] == schedule[1..] + [Shell];
      MovesThenShell(Move(ss, schedule[0]), schedule[1..]);
    }
  }

  lemma SecondOwes(c: Config, s: State)
    requires ValidConfig(c) && Inv(c, s) && s.mpc.Finish? && !BothStored(s)
    ensures !s.meet.p2.Done? && Path(s.meet.first, s.meet.second) in s.meet.fifos
    ensures Owes(Lag(s.meet.p2, s.meet.tm2, s.meet.fifos[Path(s.meet.first, s.meet.second)]))
  {
    FinishFacts(c, s);
    LagBegins(c, s.meet);
  }

  /** Whenever the Manager is a target of the first of several exchanges, the next one can begin while
      the other target has still to store its secret. */
  lemma ExchangesOverlap(root: Tree, secrets: map<string, nat>, commands: seq<Pair>) returns (schedule: seq<Mover>)
    requires ValidSession(root, secrets, commands) && |commands| >= 2
    requires commands[0].a == root.name || commands[0].b == root.name
    ensures var ss := Moves(Begin(root, secrets, commands), schedule);
      var other := if commands[0].a == root.name then commands[0].b else commands[0].a;
      && |ss.done| == 1 && ss.lags.Keys == {other} && Owes(ss.lags[other])
      && ss.s.search == Init(ss.c).search && ss.s.meet.p1.Idle? && ss.s.linked == Paths(ss.c)
  {
    var ss := Begin(root, secrets, commands);
    assert ValidConfig(Config(root, commands[0].a, commands[0].b, secrets));
    var steps := FinishFirst(ss.c);
    var s := Run(ss.c, Init(ss.c), steps);
    PlainMoves(ss, [], steps);
    MovesThenShell(ss, Exchangers(steps));
    schedule := Exchangers(steps) + [Shell];
    assert LagsNow(ss.(s := s)).Keys == {s.meet.second} && Moves(ss, schedule) == NextCommand(ss.(s := s));
  }

  lemma FinishFirst(c: Config) returns (steps: seq<Actor>)
    requires ValidConfig(c) && IsTarget(c, c.root.name)
    ensures var s := Run(c, Init(c), steps); var m := s.meet;
      && s.mpc.Finish? && !m.p2.Done? && Path(m.first, m.second) in m.fifos
      && Owes(Lag(m.p2, m.tm2, m.fifos[Path(m.first, m.second)]))
      && m.second == Partner(c, c.root.name)
  {
    InitInv(c);
    steps := LaggingFinish(c, Init(c));
    ReachableInv(c, steps);
    SecondOwes(c, Run(c, Init(c), steps));
    OtherIsSecond(c, Run(c, Init(c), steps));
  }

  lemma OtherIsSecond(c: Config, s: State)
    requires Inv(c, s) && IsTarget(c, c.root.name) && Found(c, s.search.log) == 2
    ensures s.meet.second == Partner(c, c.root.name)
  {
  }

  // ----- a left-over marker opens a FIFO early --------------------------------------------

  /** The search reaches the Manager's first child, which answers and begins to wait. */
  lemma FirstChildWaits(ss: Session, kid: Tree) returns (s: State)
    requires ss.s.search == Init(ss.c).search && !IsTarget(ss.c, ss.c.root.name)
    requires ss.c.root.kids != [] && kid == ss.c.root.kids[0] && kid.kids == []
    requires IsTarget(ss.c, kid.name) && kid.name !in ss.lags
    ensures Moves(ss, [Exchanger(Token), Exchanger(Token), Exchanger(Token)]) == ss.(s := s)
    ensures s.search.log == [ss.c.root.name, kid.name] && s.search.msg == Up(1)
    ensures s.markers == ss.s.markers + {kid.name} && s.linked == ss.s.linked
    ensures s.meet == ss.s.meet.(first := kid.name, p1 := Spin1)
  {
    var c := ss.c;
    var s1 := StepToken(c, ss.s);
    var s2 := StepToken(c, s1);
    s := StepToken(c, s2);
    var t := Exchanger(Token);
    assert s1.search.msg == Down(kid, 0);
    assert s2.search.frames[0] == Frame(First, [], 1);
    ThreeMoves(ss, t, t, t);
  }

  lemma ThreeMoves(ss: Session, x: Mover, y: Mover, z: Mover)
    ensures Moves(ss, [x, y, z]) == Move(Move(Move(ss, x), y), z)
  {
    assert [x, y, z][1..] == [y, z] && [y, z][1..] == [z] && [z][1..] == [];
    assert Moves(Move(Move(ss, x), y), [z]) == Move(Move(Move(ss, x), y), z);
    assert Moves(Move(ss, x), [y, z]) == Moves(Move(Move(ss, x), y), [z]);
  }

  /** With both marker files there it stops polling and opens its FIFO. */
  lemma OpensOnMarkers(ss: Session)
    requires ss.s.meet.p1.Spin1? && ss.c.a in ss.s.markers && ss.c.b in ss.s.markers
    requires IsTarget(ss.c, ss.s.meet.first) && ss.s.linked == Paths(ss.c) && ss.s.meet.fifos == NoFifos(ss.c)
    ensures var x := Exchanger(FirstTarget); var s := Moves(ss, [x, x, x]).s;
      s.meet.p1 == WaitR(0) && s.search == ss.s.search && Moves(ss, [x, x, x]).done == ss.done
  {
    var x := Exchanger(FirstTarget);
    ThreeMoves(ss, x, x, x);
    PollsSucceed(ss);
    OpensNow(Move(Move(ss, x), x));
  }

  lemma PollsSucceed(ss: Session)
    requires ss.s.meet.p1.Spin1? && ss.c.a in ss.s.markers && ss.c.b in ss.s.markers
    ensures var x := Exchanger(FirstTarget);
      Move(Move(ss, x), x) == ss.(s := Knowing(ss.c, ss.s).(meet := Knowing(ss.c, ss.s).meet.(p1 := OpenR)))
  {
  }

  lemma OpensNow(ss: Session)
    requires ss.s.meet.p1.OpenR? && IsTarget(ss.c, ss.s.meet.first)
    requires ss.s.linked == Paths(ss.c) && ss.s.meet.fifos == NoFifos(ss.c)
    ensures var ss' := Move(ss, Exchanger(FirstTarget));
      ss'.s.meet.p1 == WaitR(0) && ss'.s.search == ss.s.search && ss'.done == ss.done
  {
    var m := Knowing(ss.c, ss.s).meet;
    assert Path(m.second, m.first) in Paths(ss.c);
  }

  lemma {:induction false} MovesAppend(ss: Session, a: seq<Mover>, b: seq<Mover>)
    ensures Moves(ss, a + b) == Moves(Moves(ss, a), b)
    decreases |a|
  {
    if a == [] {
      assert a + b == b;
    } else {
      assert (a + b)[1..] == a[1..] + b;
      MovesAppend(Move(ss, a[0]), a[1..], b);
    }
  }

  /** The Manager has just exchanged with `commands[0]`'s other target; that one and the Manager's first
      child, a service without children, are to exchange next. Then the child can take the left-over
      marker for the other's new one: it opens its FIFO when the other has not even received the command. */
  lemma OpensEarly(root: Tree, secrets: map<string, nat>, commands: seq<Pair>) returns (schedule: seq<Mover>)
    requires ValidSession(root, secrets, commands) && |commands| >= 2
    requires root.kids != [] && root.kids[0].kids == []
    requires commands[0].a == root.name && commands[1] == Pair(root.kids[0].name, commands[0].b)
    ensures var ss := Moves(Begin(root, secrets, commands), schedule);
      |ss.done| == 1 && ss.s.meet.p1.WaitR? && commands[0].b !in ss.s.search.log
  {
    var before := ExchangesOverlap(root, secrets, commands);
    var ss := Moves(Begin(root, secrets, commands), before);
    BeginInv(root, secrets, commands);
    MovesKeepInv(Begin(root, secrets, commands), before, root, secrets, commands);
    assert ValidConfig(Config(root, commands[0].a, commands[0].b, secrets));
    SecondCommand(ss, root, secrets, commands);
    KidIsNotRoot(root);
    OpensFrom(ss, root.kids[0], commands[0].b);
    var t, x := Exchanger(Token), Exchanger(FirstTarget);
    schedule := before + ([t, t, t] + [x, x, x]);
    MovesAppend(Begin(root, secrets, commands), before, [t, t, t] + [x, x, x]);
  }

  lemma KidIsNotRoot(root: Tree)
    requires NoDup(Preorder(root)) && root.kids != []
    ensures root.kids[0].name != root.name
  {
    var kid := root.kids[0];
    assert PreorderAll(root.kids) == [kid.name] + PreorderAll(kid.kids) + PreorderAll(root.kids[1..]);
    assert Preorder(root)[0] == root.name && Preorder(root)[1] == kid.name;
  }

  lemma OpensFrom(ss: Session, kid: Tree, other: string)
    requires ss.s.search == Init(ss.c).search && !IsTarget(ss.c, ss.c.root.name) && ss.s.linked == Paths(ss.c)
    requires ss.c.root.kids != [] && kid == ss.c.root.kids[0] && kid.kids == []
    requires ss.c.a == kid.name && ss.c.b == other && kid.name !in ss.lags && kid.name != other
    requires other in ss.s.markers && ss.s.meet.fifos == NoFifos(ss.c)
    ensures var t, x := Exchanger(Token), Exchanger(FirstTarget);
      var ss' := Moves(ss, [t, t, t] + [x, x, x]);
      ss'.s.meet.p1.WaitR? && other !in ss'.s.search.log && ss'.done == ss.done
  {
    var t, x := Exchanger(Token), Exchanger(FirstTarget);
    var s := FirstChildWaits(ss, kid);
    OpensOnMarkers(ss.(s := s));
    MovesAppend(ss, [t, t, t], [x, x, x]);
  }

  /** What the second of a session's commands finds. */
  lemma SecondCommand(ss: Session, root: Tree, secrets: map<string, nat>, commands: seq<Pair>)
    requires SessionInv(ss) && ValidSession(root, secrets, commands) && History(ss, root, secrets, commands)
    requires |ss.done| == 1 && |commands| >= 2 && ss.s.meet.p1.Idle? && ss.s.search == Init(ss.c).search
    ensures ss.c.root == root && ss.c.a == commands[1].a && ss.c.b == commands[1].b && ValidConfig(ss.c)
    ensures forall n | n in ss.lags :: n in ss.s.markers
    ensures !IsTarget(ss.c, root.name) ==> ss.s.meet.fifos == NoFifos(ss.c)
  {
    var all := ss.done + [Pair(ss.c.a, ss.c.b)] + ss.todo;
    assert all[1] == commands[1];
    ReachableHasInv(ss.c, Serial(ss));
    assert Found(ss.c, ss.s.search.log) < 2;
  }
}
