/** Every step of a session of exchanges is some steps of the current exchange without laggards, or
    none: so what holds of one exchange holds of all of them. */
module ExchangeOverlap {
  import opened Trees
  import opened Text
  import opened Exchange
  import opened ExchangeInvariant
  import opened ExchangeSteps
  import opened ExchangeSearch
  import opened ExchangeTheorems
  import opened ExchangeSessions

  // ----- steps with both targets met ------------------------------------------------------

  lemma SettledPut(secrets: map<string, nat>, lags: map<string, Lag>, n: string, v: nat)
    requires n !in lags && n in secrets
    ensures Settled(secrets[n := v], lags) == Settled(secrets, lags)[n := v]
  {
  }

  lemma SetMinus(a: set<string>, b: set<string>, n: string)
    ensures (a - {n}) - b == (a - b) - {n}
    ensures n !in b ==> (a + {n}) - b == (a - b) + {n}
  {
  }

  lemma VeiledFirstCall(m: Meeting, linked: set<string>, lags: map<string, Lag>)
    requires m.first !in lags
    ensures FirstIo(m.(secrets := Settled(m.secrets, lags)), linked)
         == FirstIo(m, linked).(secrets := Settled(m.secrets, lags))
  {
  }

  lemma VeiledSecondCall(m: Meeting, linked: set<string>, lags: map<string, Lag>)
    requires m.second !in lags
    ensures SecondIo(m.(secrets := Settled(m.secrets, lags)), linked)
         == SecondIo(m, linked).(secrets := Settled(m.secrets, lags))
  {
  }

  lemma VeiledFirst(c: Config, s: State, lags: map<string, Lag>)
    requires c.a !in lags && c.b !in lags && s.meet.first !in lags && s.meet.first in s.meet.secrets
    ensures StepFirst(c, Veil(s, lags)) == Veil(StepFirst(c, s), lags)
  {
    var m := s.meet;
    if m.p1.Store? {
      SettledPut(m.secrets, lags, m.first, StoredSecret(m.tm1));
    } else if m.p1.Unlink? {
      SetMinus(s.markers, lags.Keys, m.first);
    } else if !Spinning(m.p1) && !m.p1.Report? {
      VeiledFirstCall(m, s.linked, lags);
    }
  }

  lemma VeiledSecond(s: State, lags: map<string, Lag>)
    requires s.meet.second !in lags && s.meet.second in s.meet.secrets
    ensures StepSecond(Veil(s, lags)) == Veil(StepSecond(s), lags)
  {
    var m := s.meet;
    if m.p2.Store? {
      SettledPut(m.secrets, lags, m.second, StoredSecret(m.tm2));
    } else if m.p2.Unlink? {
      SetMinus(s.markers, lags.Keys, m.second);
    } else {
      VeiledSecondCall(m, s.linked, lags);
    }
  }

  lemma VeiledManager(c: Config, s: State, lags: map<string, Lag>)
    requires (s.mpc.Check1? ==> c.a !in lags) && (s.mpc.Check2? ==> c.b !in lags)
    ensures StepManager(c, Veil(s, lags)) == Veil(StepManager(c, s), lags)
  {
  }

  lemma VeiledToken(c: Config, s: State, lags: map<string, Lag>)
    requires s.search.msg.Down? ==> s.search.msg.tree.name !in lags
    ensures StepToken(c, Veil(s, lags)) == Veil(StepToken(c, s), lags)
  {
    if s.search.msg.Down? {
      SetMinus(s.markers, lags.Keys, s.search.msg.tree.name);
    }
  }

  // ----- steps of the search before both targets are met ----------------------------------

  /** A target ahead of the search waits for the markers. */
  lemma AheadWaits(c: Config, v: State)
    requires Inv(c, Cover(c, v)) && Ahead(c, v)
    ensures v.mode.Waiting? && FirstFrames(v.search.frames) == 0 && Found(c, v.search.log) == 1
    ensures v.mpc.Searching? && v.meet.p2.Idle? && v.linked == Paths(c)
    ensures IsTarget(c, v.meet.first) && v.markers == {v.meet.first} && v.meet.first in v.search.log
  {
  }

  lemma NotAheadIdle(c: Config, v: State)
    requires Inv(c, Cover(c, v)) && Found(c, v.search.log) < 2 && v.search.msg.NoMsg? && v.search.frames != []
    requires v.search.frames[0].role.First?
    ensures v.meet.p1.Idle? && v.search.frames[0].g != 2
  {
    PendingPush(v.search.frames[0], v.search.frames[1..]);
    assert v.search.frames == [v.search.frames[0]] + v.search.frames[1..];
  }

  lemma RootNotDone(c: Config, v: State)
    requires ValidConfig(c) && Inv(c, Cover(c, v)) && Found(c, v.search.log) < 2
    requires v.search.msg.NoMsg? && v.search.frames != [] && v.search.frames[0].todo == []
    ensures !v.search.frames[0].role.Root?
  {
    if v.search.frames[0].role.Root? {
      SearchEnds(c, v.search);
    }
  }

  /** Every step of the search but the receipt of the command. */
  lemma CoverToken(c: Config, v: State)
    requires ValidConfig(c) && Inv(c, Cover(c, v)) && !v.search.msg.Down?
    requires Ahead(c, v) ==> AheadOk(c, v.meet)
    ensures var v' := StepToken(c, v);
      Cover(c, v') == StepToken(c, Cover(c, v)) && (Ahead(c, v') ==> AheadOk(c, v'.meet))
  {
    var q := v.search;
    if Found(c, q.log) < 2 && q.msg.NoMsg? && q.frames != [] && q.frames[0].todo == [] {
      RootNotDone(c, v);
      if q.frames[0].role.First? {
        NotAheadIdle(c, v);
      }
    }
  }

  // ----- a service receives the command ---------------------------------------------------

  lemma ReceivedCount(c: Config, q: Search, searching: bool)
    requires ValidConfig(c) && LogInv(c, q) && TokenInv(c, q, searching) && q.msg.Down?
    ensures var n := q.msg.tree.name;
      && Found(c, q.log) == q.msg.g < 2 && n !in q.log
      && Found(c, q.log + [n]) == Found(c, q.log) + Bit(IsTarget(c, n))
  {
    NextVisit(c, q);
  }

  lemma CoverReceiveEarly(c: Config, v: State)
    requires ValidConfig(c) && Inv(c, Cover(c, v)) && v.search.msg.Down?
    requires Found(c, Receive(c, v).search.log) < 2 || !Ahead(c, v)
    requires Ahead(c, v) ==> AheadOk(c, v.meet)
    ensures var v' := Receive(c, v);
      Cover(c, v') == Receive(c, Cover(c, v)) && (Ahead(c, v') ==> AheadOk(c, v'.meet))
  {
    ReceivedCount(c, v.search, v.mpc.Searching?);
    if Ahead(c, v) {
      AheadWaits(c, v);
    }
  }

  /** The first target, polling from the start, overtakes to where it is ahead. */
  lemma CatchUp(c: Config, r: State, p1: Pc) returns (rest: seq<Actor>)
    requires r.meet.p1.Spin1? && c.a in r.markers && c.b in r.markers && r.meet.fifos == NoFifos(c)
    requires r.linked == Paths(c) && Path(r.meet.second, r.meet.first) in Paths(c)
    requires p1.Spin1? || p1.Spin2? || p1.OpenR? || p1 == WaitR(0)
    ensures var fifos := if p1.WaitR?
        then NoFifos(c)[Path(r.meet.second, r.meet.first) := EnterRead(Fifo(0, 0, 0, 0, ""))]
        else NoFifos(c);
      Run(c, r, rest) == r.(meet := r.meet.(p1 := p1, fifos := fifos))
  {
    var r1 := r.(meet := r.meet.(p1 := Spin2));
    var r2 := r.(meet := r.meet.(p1 := OpenR));
    assert StepFirst(c, r) == r1 && StepFirst(c, r1) == r2;
    match p1
    case Spin1 => rest := [];
    case Spin2 => rest := [FirstTarget]; RunOne(c, r, FirstTarget);
    case OpenR => rest := [FirstTarget, FirstTarget]; RunTwo(c, r, FirstTarget, FirstTarget);
    case WaitR(_) =>
      rest := [FirstTarget, FirstTarget] + [FirstTarget];
      RunTwo(c, r, FirstTarget, FirstTarget);
      RunOne(c, r2, FirstTarget);
      RunAppend(c, r, [FirstTarget, FirstTarget], [FirstTarget]);
  }

  lemma RunOne(c: Config, r: State, x: Actor)
    ensures Run(c, r, [x]) == Step(c, r, x)
  {
    assert [x][1..] == [];
  }

  lemma RunTwo(c: Config, r: State, x: Actor, y: Actor)
    ensures Run(c, r, [x, y]) == Step(c, Step(c, r, x), y)
  {
    assert [x, y][1..] == [y];
    RunOne(c, Step(c, r, x), y);
  }

  /** The second target is met while the first is ahead. */
  lemma CoverReceiveSecond(c: Config, v: State) returns (rest: seq<Actor>)
    requires ValidConfig(c) && Inv(c, Cover(c, v)) && v.search.msg.Down?
    requires Found(c, Receive(c, v).search.log) >= 2 && Ahead(c, v) && AheadOk(c, v.meet)
    ensures Cover(c, Receive(c, v)) == Run(c, Receive(c, Cover(c, v)), rest)
  {
    AheadWaits(c, v);
    ReceivedCount(c, v.search, v.mpc.Searching?);
    var n := v.search.msg.tree.name;
    assert n == Partner(c, v.meet.first) && n != v.meet.first;
    var r := Receive(c, Cover(c, v));
    assert r.markers == {v.meet.first} + {n};
    rest := CatchUp(c, r, v.meet.p1);
  }

  // ----- the other actors before both targets are met -------------------------------------

  /** A first target that is ahead polls, opens and sleeps, unseen by the others. */
  lemma AheadSteps(c: Config, s: State)
    requires Ahead(c, s) && AheadOk(c, s.meet) && s.linked == Paths(c)
    ensures var s' := StepFirst(c, Knowing(c, s));
      && s' == s.(meet := s.meet.(second := s'.meet.second, p1 := s'.meet.p1, fifos := s'.meet.fifos))
      && AheadOk(c, s'.meet) && !s'.meet.p1.Idle?
  {
  }

  lemma IdleSteps(c: Config, s: State)
    ensures s.meet.p1.Idle? ==> StepFirst(c, Knowing(c, s)) == s
    ensures s.meet.p2.Idle? ==> StepSecond(s) == s
    ensures s.mpc.Searching? ==> StepManager(c, s) == s
  {
  }

  // ----- laggards -------------------------------------------------------------------------

  lemma LagCall(lag: Lag)
    requires LagOk(lag) && (lag.pc.WaitR? || lag.pc.Read? || lag.pc.CloseR?)
    ensures var io := ReadStep(lag.fifo, false, lag.pc, lag.tm, Store);
      LagOk(Lag(io.pc, io.tm, io.fifo)) && Owes(Lag(io.pc, io.tm, io.fifo))
      && Due(Lag(io.pc, io.tm, io.fifo)) == Due(lag)
  {
    if lag.pc.Read? {
      assert lag.fifo.data[..|lag.fifo.data|] == lag.fifo.data;
    }
  }

  lemma SettledSame(secrets: map<string, nat>, secrets': map<string, nat>,
                    lags: map<string, Lag>, lags': map<string, Lag>)
    requires secrets'.Keys == secrets.Keys
    requires forall n | n in secrets ::
      (if n in lags' && Owes(lags'[n]) then Due(lags'[n]) else secrets'[n])
      == (if n in lags && Owes(lags[n]) then Due(lags[n]) else secrets[n])
    ensures Settled(secrets', lags') == Settled(secrets, lags)
  {
  }

  lemma LagReads(ss: Session, n: string)
    requires LagsOk(ss) && n in ss.lags && !ss.lags[n].pc.Store? && !ss.lags[n].pc.Unlink?
    ensures var ss' := StepLag(ss, n); LagsOk(ss') && Veil(ss'.s, ss'.lags) == Veil(ss.s, ss.lags)
  {
    LagCall(ss.lags[n]);
    SettledSame(ss.s.meet.secrets, ss.s.meet.secrets, ss.lags, StepLag(ss, n).lags);
  }

  lemma LagStores(ss: Session, n: string)
    requires LagsOk(ss) && n in ss.lags && ss.lags[n].pc.Store?
    ensures var ss' := StepLag(ss, n); LagsOk(ss') && Veil(ss'.s, ss'.lags) == Veil(ss.s, ss.lags)
  {
    SettledSame(ss.s.meet.secrets, StepLag(ss, n).s.meet.secrets, ss.lags, StepLag(ss, n).lags);
  }

  lemma LagLeaves(ss: Session, n: string)
    requires LagsOk(ss) && n in ss.lags && ss.lags[n].pc.Unlink?
    ensures var ss' := StepLag(ss, n); LagsOk(ss') && Veil(ss'.s, ss'.lags) == Veil(ss.s, ss.lags)
  {
    SettledSame(ss.s.meet.secrets, ss.s.meet.secrets, ss.lags, ss.lags - {n});
    assert (ss.s.markers - {n}) - (ss.lags - {n}).Keys == ss.s.markers - ss.lags.Keys;
  }

  lemma LagKeepsVeil(ss: Session, n: string)
    requires Shape(ss) && n in ss.lags
    ensures Shape(StepLag(ss, n)) && StepLag(ss, n).c == ss.c && Serial(StepLag(ss, n)) == Serial(ss)
  {
    if ss.lags[n].pc.Store? {
      LagStores(ss, n);
    } else if ss.lags[n].pc.Unlink? {
      LagLeaves(ss, n);
    } else {
      LagReads(ss, n);
    }
  }

  // ----- every step of a session ----------------------------------------------------------

  /** With both targets met nobody of the exchange is a laggard. */
  lemma MetNoLaggards(ss: Session)
    requires SessionInv(ss) && Found(ss.c, ss.s.search.log) >= 2
    ensures ss.c.a !in ss.lags && ss.c.b !in ss.lags
    ensures ss.s.meet.first !in ss.lags && ss.s.meet.second !in ss.lags
    ensures ss.s.meet.first in ss.s.meet.secrets && ss.s.meet.second in ss.s.meet.secrets
    ensures ss.s.meet.second == Partner(ss.c, ss.s.meet.first)
  {
    ReachableHasInv(ss.c, Serial(ss));
    var m := Serial(ss).meet;
    assert m.first in m.secrets && m.second in m.secrets;
  }

  /** The session goes on like the exchange without laggards. */
  ghost predicate Simulates(ss: Session, s': State, moves: seq<Actor>) {
    var ss' := ss.(s := s');
    && Serial(ss') == Run(ss.c, Serial(ss), moves)
    && LagsOk(ss') && (Ahead(ss.c, s') ==> AheadOk(ss.c, s'.meet))
  }

  lemma TokenKeepsLags(ss: Session)
    requires LagsOk(ss) && !Blocked(ss)
    ensures LagsOk(ss.(s := StepToken(ss.c, ss.s)))
  {
  }

  lemma TokenSimulates(ss: Session) returns (moves: seq<Actor>)
    requires SessionInv(ss) && !Blocked(ss)
    ensures moves != [] && moves[0] == Token && Simulates(ss, StepToken(ss.c, ss.s), moves)
  {
    ReachableHasInv(ss.c, Serial(ss));
    var c, v := ss.c, Veil(ss.s, ss.lags);
    TokenKeepsLags(ss);
    VeiledToken(c, ss.s, ss.lags);
    var rest := [];
    if !v.search.msg.Down? {
      CoverToken(c, v);
    } else if Found(c, Receive(c, v).search.log) < 2 || !Ahead(c, v) {
      CoverReceiveEarly(c, v);
    } else {
      rest := CoverReceiveSecond(c, v);
    }
    moves := [Token] + rest;
    assert moves[1..] == rest;
  }

  lemma KeepsLags(ss: Session, s': State)
    requires LagsOk(ss) && s'.search.log == ss.s.search.log
    requires forall n | n in ss.lags :: n in s'.markers && n in s'.meet.secrets
    ensures LagsOk(ss.(s := s'))
  {
  }

  lemma MetSimulates(ss: Session, s': State, x: Actor)
    requires Found(ss.c, ss.s.search.log) >= 2 && s'.search.log == ss.s.search.log
    requires Veil(s', ss.lags) == Step(ss.c, Veil(ss.s, ss.lags), x) && LagsOk(ss.(s := s'))
    ensures Simulates(ss, s', [x])
  {
    RunOne(ss.c, Serial(ss), x);
  }

  lemma FirstKeepsLags(ss: Session)
    requires LagsOk(ss) && ss.s.meet.first !in ss.lags
    ensures StepFirst(ss.c, ss.s).search.log == ss.s.search.log && LagsOk(ss.(s := StepFirst(ss.c, ss.s)))
  {
    FirstHasEffect(ss.c, ss.s);
    FirstSecrets(ss.c, ss.s);
    KeepsLags(ss, StepFirst(ss.c, ss.s));
  }

  lemma FirstSecrets(c: Config, s: State)
    ensures forall n | n in s.meet.secrets :: n in StepFirst(c, s).meet.secrets
  {
  }

  lemma SecondKeepsLags(ss: Session)
    requires LagsOk(ss) && ss.s.meet.second !in ss.lags
    ensures StepSecond(ss.s).search.log == ss.s.search.log && LagsOk(ss.(s := StepSecond(ss.s)))
  {
    SecondHasEffect(ss.s);
    SecondSecrets(ss.s);
    KeepsLags(ss, StepSecond(ss.s));
  }

  lemma SecondSecrets(s: State)
    ensures forall n | n in s.meet.secrets :: n in StepSecond(s).meet.secrets
  {
  }

  /** The first target ahead of the search. */
  lemma AheadSimulates(ss: Session)
    requires SessionInv(ss) && Ahead(ss.c, ss.s)
    ensures Simulates(ss, StepFirst(ss.c, Knowing(ss.c, ss.s)), [])
  {
    ReachableHasInv(ss.c, Serial(ss));
    AheadWaits(ss.c, Veil(ss.s, ss.lags));
    AheadSteps(ss.c, ss.s);
    KeepsLags(ss, StepFirst(ss.c, Knowing(ss.c, ss.s)));
  }

  lemma FirstSimulates(ss: Session)
    requires SessionInv(ss)
    ensures Simulates(ss, StepFirst(ss.c, Knowing(ss.c, ss.s)),
                      if Found(ss.c, ss.s.search.log) < 2 then [] else [FirstTarget])
  {
    if Found(ss.c, ss.s.search.log) >= 2 {
      MetNoLaggards(ss);
      VeiledFirst(ss.c, ss.s, ss.lags);
      FirstKeepsLags(ss);
      MetSimulates(ss, StepFirst(ss.c, ss.s), FirstTarget);
      assert Knowing(ss.c, ss.s) == ss.s;
    } else if Ahead(ss.c, ss.s) {
      AheadSimulates(ss);
    } else {
      IdleSteps(ss.c, ss.s);
    }
  }

  lemma SecondSimulates(ss: Session)
    requires SessionInv(ss)
    ensures Simulates(ss, StepSecond(ss.s), if Found(ss.c, ss.s.search.log) < 2 then [] else [SecondTarget])
  {
    if Found(ss.c, ss.s.search.log) >= 2 {
      MetNoLaggards(ss);
      VeiledSecond(ss.s, ss.lags);
      SecondKeepsLags(ss);
      MetSimulates(ss, StepSecond(ss.s), SecondTarget);
    } else {
      EarlyIdle(ss);
      IdleSteps(ss.c, ss.s);
    }
  }

  /** Before both targets are met there is no second target and the Manager is searching. */
  lemma EarlyIdle(ss: Session)
    requires SessionInv(ss) && Found(ss.c, ss.s.search.log) < 2
    ensures ss.s.meet.p2.Idle? && ss.s.mpc.Searching?
  {
    ReachableHasInv(ss.c, Serial(ss));
  }

  lemma ManagerSimulates(ss: Session)
    requires SessionInv(ss)
    ensures Simulates(ss, StepManager(ss.c, ss.s), if Found(ss.c, ss.s.search.log) < 2 then [] else [TheManager])
  {
    if Found(ss.c, ss.s.search.log) >= 2 {
      MetNoLaggards(ss);
      ManagerHasEffect(ss.c, ss.s);
      VeiledManager(ss.c, ss.s, ss.lags);
      KeepsLags(ss, StepManager(ss.c, ss.s));
      MetSimulates(ss, StepManager(ss.c, ss.s), TheManager);
    } else {
      EarlyIdle(ss);
      IdleSteps(ss.c, ss.s);
    }
  }

  /** An actor that is not blocked takes the exchange without laggards as far as it goes, or does
      nothing that can be seen there. */
  lemma ActorSimulates(ss: Session, x: Actor) returns (moves: seq<Actor>)
    requires SessionInv(ss) && !(x.Token? && Blocked(ss))
    ensures StepActor(ss, x) == ss.(s := StepActor(ss, x).s) && Simulates(ss, StepActor(ss, x).s, moves)
    ensures if moves == [] then !x.Token? && Found(ss.c, ss.s.search.log) < 2 else moves[0] == x
  {
    match x
    case Token => moves := TokenSimulates(ss);
    case FirstTarget =>
      FirstSimulates(ss);
      moves := if Found(ss.c, ss.s.search.log) < 2 then [] else [FirstTarget];
    case SecondTarget =>
      SecondSimulates(ss);
      moves := if Found(ss.c, ss.s.search.log) < 2 then [] else [SecondTarget];
    case TheManager =>
      ManagerSimulates(ss);
      moves := if Found(ss.c, ss.s.search.log) < 2 then [] else [TheManager];
  }
}
