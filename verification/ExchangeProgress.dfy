/** No reachable state of an exchange is stuck, and fair scheduling ends it. */
module ExchangeProgress {
  import opened Trees
  import opened Text
  import opened Exchange
  import opened ExchangeInvariant
  import opened ExchangeSteps
  import opened ExchangeSearch

  // ----- the work left --------------------------------------------------------------------

  ghost function FramesRank(frames: seq<Frame>): nat {
    if frames == [] then 0 else 2 + 4 * SizeAll(frames[0].todo) + FramesRank(frames[1..])
  }

  ghost function SearchRank(q: Search): nat {
    FramesRank(q.frames) + match q.msg
                           case NoMsg => 0
                           case Down(t, _) => 4 * Size(t) - 1
                           case Up(_) => 1
  }

  /** Polling is no progress before both markers are there. */
  ghost function Rank1(pc: Pc, both: bool): nat {
    match pc
    case Idle => 20
    case Spin1 => if both then 15 else 16
    case Spin2 => if both then 14 else 16
    case OpenR => 13 case WaitR(_) => 12 case Read => 11 case CloseR => 10
    case OpenW => 9 case WaitW(_) => 8 case Write => 7 case CloseW => 6
    case Store => 5 case Report => 4 case Unlink => 3
    case Done => 0 case Crashed => 0
  }

  ghost function Rank2(pc: Pc): nat {
    match pc
    case Idle => 20
    case OpenW => 13 case WaitW(_) => 12 case Write => 11 case CloseW => 10
    case OpenR => 9 case WaitR(_) => 8 case Read => 7 case CloseR => 6
    case Store => 5 case Unlink => 3
    case _ => 0
  }

  /** Nor is the Manager's polling while a marker is left. */
  ghost function ManagerRank(mpc: ManagerPc, none: bool): nat {
    match mpc
    case Searching => 10 case Exchanging => 9
    case Check1 => if none then 7 else 8
    case Check2 => if none then 6 else 8
    case Unlink1 => 5 case Unlink2 => 4 case Print => 3 case Finish => 0
  }

  ghost predicate Marked(c: Config, s: State) { c.a in s.markers && c.b in s.markers }

  ghost predicate Unmarked(c: Config, s: State) { c.a !in s.markers && c.b !in s.markers }

  ghost function Rank(c: Config, s: State): nat {
    SearchRank(s.search) + Rank1(s.meet.p1, Marked(c, s)) + Rank2(s.meet.p2) + ManagerRank(s.mpc, Unmarked(c, s))
  }

  /** The actor's next system call gets the exchange on: it neither blocks nor polls in vain. */
  ghost predicate Advances(c: Config, s: State, x: Actor) { Rank(c, Step(c, s, x)) < Rank(c, s) }

  /** The state but for the position inside a polling loop. */
  ghost function Calm(s: State): State {
    s.(mpc := if s.mpc.Check2? then Check1 else s.mpc,
       meet := s.meet.(p1 := if s.meet.p1.Spin2? then Spin1 else s.meet.p1))
  }

  /** A step advances, or changes nothing but a position inside a polling loop. */
  ghost predicate DescendsTo(c: Config, s: State, s': State) {
    Rank(c, s') < Rank(c, s) || (Rank(c, s') == Rank(c, s) && Calm(s') == Calm(s))
  }

  // ----- steps and the rank ---------------------------------------------------------------

  lemma FramesRankPush(f: Frame, rest: seq<Frame>)
    ensures FramesRank([f] + rest) == 2 + 4 * SizeAll(f.todo) + FramesRank(rest)
  {
    assert ([f] + rest)[1..] == rest;
  }

  lemma SearchAdvances(q: Search)
    requires q.frames != []
    ensures q.msg.Up? ==> SearchRank(Deliver(q)) < SearchRank(q)
    ensures q.msg.NoMsg? && q.frames[0].todo != [] ==> SearchRank(Ask(q)) < SearchRank(q)
    ensures q.msg.NoMsg? && q.frames[0].todo == [] ==> SearchRank(Answer(q)) < SearchRank(q)
  {
    var f, rest := q.frames[0], q.frames[1..];
    if q.msg.Up? {
      FramesRankPush(Deliver(q).frames[0], rest);
    } else if q.msg.NoMsg? && f.todo != [] {
      FramesRankPush(Ask(q).frames[0], rest);
      assert SizeAll(f.todo) == Size(f.todo[0]) + SizeAll(f.todo[1..]);
    }
  }

  lemma ReceiveAdvances(c: Config, s: State)
    requires s.search.msg.Down?
    ensures SearchRank(Receive(c, s).search) < SearchRank(s.search)
  {
    var q := s.search;
    FramesRankPush(Frame(Relay, q.msg.tree.kids, q.msg.g), q.frames);
    FramesRankPush(Frame(First, q.msg.tree.kids, q.msg.g + 1), q.frames);
  }

  /** A FIFO call that does not return leaves everything as it was. */
  lemma CallDescends(fifos: map<string, Fifo>, linked: set<string>, pc: Pc, tm: string,
                     r: string, w: string, bytes: string, afterRead: Pc, afterWrite: Pc)
    requires !afterRead.Idle? && !Spinning(afterRead) && !Reading(afterRead)
    requires afterWrite.OpenR? || afterWrite.Store?
    ensures var (io, fifos') := FifoCall(fifos, linked, pc, tm, r, w, bytes, afterRead, afterWrite);
      && (io.pc == pc ==> io.tm == tm && fifos' == fifos)
      && (io.pc != pc ==>
          || (Reading(pc) && Rank1(io.pc, true) < Rank1(pc, true)
              && (Reading(io.pc) || io.pc == afterRead || io.pc.Crashed?))
          || (Writing(pc)
              && ((Writing(io.pc) && Rank1(io.pc, true) < Rank1(pc, true)) || io.pc == afterWrite || io.pc.Crashed?)))
  {
  }

  lemma SecondDescends(s: State)
    ensures Rank2(StepSecond(s).meet.p2) <= Rank2(s.meet.p2)
    ensures Rank2(StepSecond(s).meet.p2) == Rank2(s.meet.p2) ==> StepSecond(s) == s
  {
    var m := s.meet;
    if Reading(m.p2) || Writing(m.p2) {
      CallDescends(m.fifos, s.linked, m.p2, m.tm2, Path(m.first, m.second), Path(m.second, m.first),
                   OwnBytes(m, m.second), Store, OpenR);
      assert StepSecond(s) == s.(meet := SecondIo(m, s.linked));
    }
  }

  lemma SecondStepDescends(c: Config, s: State)
    requires UnlinksLate(s.meet)
    ensures DescendsTo(c, s, StepSecond(s))
  {
    SecondDescends(s);
    SecondHasEffect(s);
  }

  lemma FirstDescends(c: Config, s: State)
    requires !s.meet.p1.Report? && !s.meet.p1.Unlink?
    ensures var p, p' := s.meet.p1, StepFirst(c, s).meet.p1; var both := Marked(c, s);
      && Rank1(p', both) <= Rank1(p, both)
      && (Rank1(p', both) == Rank1(p, both) ==>
          if Spinning(p) then !both && Spinning(p') && StepFirst(c, s) == s.(meet := s.meet.(p1 := p'))
          else StepFirst(c, s) == s)
  {
    var m := s.meet;
    if Reading(m.p1) || Writing(m.p1) {
      CallDescends(m.fifos, s.linked, m.p1, m.tm1, Path(m.second, m.first), Path(m.first, m.second),
                   OwnBytes(m, m.first), OpenW, Store);
      assert StepFirst(c, s) == s.(meet := FirstIo(m, s.linked));
    }
  }

  lemma FirstOnlyMoves(c: Config, s: State, s': State)
    requires ModeInv(c, s) && FirstEffect(c, s, s') && !s.meet.p1.Report? && !s.meet.p1.Unlink?
    requires var p, p', both := s.meet.p1, s'.meet.p1, Marked(c, s);
      && Rank1(p', both) <= Rank1(p, both)
      && (Rank1(p', both) == Rank1(p, both) ==>
          if Spinning(p) then !both && Spinning(p') && s' == s.(meet := s.meet.(p1 := p'))
          else s' == s)
    ensures DescendsTo(c, s, s')
  {
  }

  lemma FirstReports(c: Config, s: State)
    requires ModeInv(c, s) && s.meet.p1.Report?
    ensures DescendsTo(c, s, s.(search := Answer(s.search), meet := s.meet.(p1 := Unlink)))
  {
    SearchAdvances(s.search);
  }

  lemma FirstUnlinks(c: Config, s: State)
    requires s.meet.p1.Unlink?
    ensures DescendsTo(c, s, s.(meet := s.meet.(p1 := Done), markers := s.markers - {s.meet.first}))
  {
  }

  lemma FirstStepDescends(c: Config, s: State)
    requires ModeInv(c, s)
    ensures DescendsTo(c, s, StepFirst(c, s))
  {
    if s.meet.p1.Report? {
      FirstReports(c, s);
    } else if s.meet.p1.Unlink? {
      FirstUnlinks(c, s);
    } else {
      FirstHasEffect(c, s);
      FirstDescends(c, s);
      FirstOnlyMoves(c, s, StepFirst(c, s));
    }
  }

  lemma ManagerStepDescends(c: Config, s: State)
    ensures DescendsTo(c, s, StepManager(c, s))
  {
  }

  lemma ReturnDescends(c: Config, s: State)
    requires ModeInv(c, s) && s.mpc.Searching?
    requires s.search.msg.NoMsg? && s.search.frames != [] && s.search.frames[0].todo == []
    ensures DescendsTo(c, s, Return(c, s))
  {
    SearchAdvances(s.search);
  }

  lemma ReceiveDescends(c: Config, s: State)
    requires ModeInv(c, s) && TokenInv(c, s.search, s.mpc.Searching?) && s.search.msg.Down?
    ensures Rank(c, Receive(c, s)) < Rank(c, s)
  {
    ReceiveAdvances(c, s);
    var s' := Receive(c, s);
    assert s'.meet.p1 == s.meet.p1 && s'.mpc == s.mpc;
    assert Marked(c, s) ==> Marked(c, s');
    assert Rank1(s'.meet.p1, Marked(c, s')) <= Rank1(s.meet.p1, Marked(c, s));
  }

  lemma TokenStepDescends(c: Config, s: State)
    requires Inv(c, s)
    ensures DescendsTo(c, s, StepToken(c, s))
  {
    var q := s.search;
    if q.msg.Down? {
      ReceiveDescends(c, s);
    } else if q.frames != [] {
      if q.msg.NoMsg? && q.frames[0].todo == [] {
        ReturnDescends(c, s);
      } else {
        SearchAdvances(q);
      }
    }
  }

  lemma StepDescends(c: Config, s: State, x: Actor)
    requires Inv(c, s)
    ensures DescendsTo(c, s, Step(c, s, x))
  {
    match x
    case Token => TokenStepDescends(c, s);
    case FirstTarget => FirstStepDescends(c, s);
    case SecondTarget => InvUnlinksLate(c, s); SecondStepDescends(c, s);
    case TheManager => ManagerStepDescends(c, s);
  }

  // ----- nobody is stuck ------------------------------------------------------------------

  /** Of two parties in the middle of their transfers one can make its next FIFO call return. */
  lemma TransferProgress(fifos: map<string, Fifo>, linked: set<string>, p1: Pc, tm1: string, p2: Pc, tm2: string,
                         to1: string, to2: string, x1: string, x2: string)
    requires TransferInv(fifos, p1, tm1, p2, tm2, to1, to2, x1, x2) && IsMessage(x1) && IsMessage(x2)
    requires Reading(p1) || Writing(p1) || Progress1(p1) >= 8
    requires Reading(p2) || Writing(p2) || Progress2(p2) >= 8
    requires !(Progress1(p1) >= 8 && Progress2(p2) >= 8)
    ensures var io1 := FifoCall(fifos, linked, p1, tm1, to1, to2, x2, OpenW, Store).0;
            var io2 := FifoCall(fifos, linked, p2, tm2, to2, to1, x1, Store, OpenR).0;
      io1.pc != p1 || io2.pc != p2
  {
  }

  lemma FirstMoving(c: Config, s: State)
    requires ModeInv(c, s)
    requires StepFirst(c, s).meet.p1 != s.meet.p1
    requires Spinning(s.meet.p1) ==> !Spinning(StepFirst(c, s).meet.p1)
    ensures Advances(c, s, FirstTarget)
  {
    FirstStepDescends(c, s);
  }

  lemma SecondMoving(c: Config, s: State)
    requires UnlinksLate(s.meet) && StepSecond(s).meet.p2 != s.meet.p2
    ensures Advances(c, s, SecondTarget)
  {
    SecondStepDescends(c, s);
  }

  /** While both targets have been met and the first has started, one of them can go on. */
  lemma MeetingAdvances(c: Config, s: State)
    requires ModeInv(c, s) && MarkerInv(c, s) && NamesInv(c, s.search.log, s.meet) && MeetingInv(c, s.meet)
    requires Found(c, s.search.log) == 2 && !s.meet.p1.Idle? && !(s.meet.p1.Done? && s.meet.p2.Done?)
    ensures Advances(c, s, FirstTarget) || Advances(c, s, SecondTarget)
  {
    var m := s.meet;
    MeetingUnlinksLate(c, m);
    if Spinning(m.p1) {
      SpinningSeesBoth(c, s);
      FirstPollSucceeds(c, s);
    } else if Progress1(m.p1) >= 8 && !m.p1.Done? {
      FirstOwnStep(c, s);
    } else if Progress2(m.p2) >= 8 && !m.p2.Done? {
      SecondMoving(c, s);
    } else {
      TransferAdvances(c, s);
    }
  }

  lemma SpinningSeesBoth(c: Config, s: State)
    requires ModeInv(c, s) && MarkerInv(c, s) && NamesInv(c, s.search.log, s.meet) && MeetingInv(c, s.meet)
    requires Found(c, s.search.log) == 2 && Spinning(s.meet.p1)
    ensures Marked(c, s)
  {
    assert Progress1(s.meet.p1) == 0 && Progress2(s.meet.p2) <= 1;
    assert s.markers == Markers(s.meet, true, true) == {s.meet.first, s.meet.second};
  }

  lemma FirstPollSucceeds(c: Config, s: State)
    requires Spinning(s.meet.p1) && Marked(c, s)
    ensures Advances(c, s, FirstTarget)
  {
  }

  lemma FirstOwnStep(c: Config, s: State)
    requires ModeInv(c, s) && (s.meet.p1.Store? || s.meet.p1.Report? || s.meet.p1.Unlink?)
    ensures Advances(c, s, FirstTarget)
  {
    FirstMoving(c, s);
  }

  lemma EitherCallReturns(c: Config, m: Meeting, linked: set<string>)
    requires MeetingInv(c, m) && !(m.p1.Done? && m.p2.Done?)
    requires (Reading(m.p1) || Writing(m.p1) || m.p1.Done?) && (Reading(m.p2) || Writing(m.p2) || m.p2.Done?)
    ensures FirstIo(m, linked).p1 != m.p1 || SecondIo(m, linked).p2 != m.p2
  {
    MessageOk(c.secrets[m.second]);
    MessageOk(c.secrets[m.first]);
    TransferProgress(m.fifos, linked, m.p1, m.tm1, m.p2, m.tm2, Path(m.second, m.first), Path(m.first, m.second),
                     SecretBytes(c.secrets[m.second]), SecretBytes(c.secrets[m.first]));
  }

  lemma TransferAdvances(c: Config, s: State)
    requires ModeInv(c, s) && MeetingInv(c, s.meet)
    requires var m := s.meet;
      && (Reading(m.p1) || Writing(m.p1) || m.p1.Done?) && (Reading(m.p2) || Writing(m.p2) || m.p2.Done?)
      && !(m.p1.Done? && m.p2.Done?)
    ensures Advances(c, s, FirstTarget) || Advances(c, s, SecondTarget)
  {
    var m := s.meet;
    EitherCallReturns(c, m, s.linked);
    MeetingUnlinksLate(c, m);
    if FirstIo(m, s.linked).p1 != m.p1 {
      assert Reading(m.p1) || Writing(m.p1);
      FirstMoving(c, s);
    } else {
      SecondMoving(c, s);
    }
  }

  lemma ManagerAdvances(c: Config, s: State)
    requires (Closing(s.mpc) && !s.mpc.Finish?) || ((s.mpc.Check1? || s.mpc.Check2?) && Unmarked(c, s))
    ensures Advances(c, s, TheManager)
  {
  }

  lemma TokenAdvances(c: Config, s: State)
    requires Inv(c, s) && s.mpc.Searching?
    requires !(s.mode.Direct? && Holding(s.search))
    ensures Advances(c, s, Token)
  {
    var q := s.search;
    TokenStepDescends(c, s);
    assert q.frames != [];
    if q.msg.Down? {
      ReceiveDescends(c, s);
    } else if q.msg.Up? || q.frames[0].todo != [] || q.frames[0].role.Relay? {
      SearchAdvances(q);
    } else {
      PendingPush(q.frames[0], q.frames[1..]);
      assert q.frames == [q.frames[0]] + q.frames[1..];
    }
  }

  /** Deadlock freedom: until everybody is done, somebody can get on. */
  lemma SomeoneAdvances(c: Config, s: State)
    requires Inv(c, s) && !Finished(s)
    ensures exists x :: Advances(c, s, x)
  {
    if s.mpc.Searching? && !(s.mode.Direct? && Holding(s.search)) {
      TokenAdvances(c, s);
    } else if Closing(s.mpc) && !s.mpc.Finish? {
      ManagerAdvances(c, s);
    } else if s.meet.p1.Done? && s.meet.p2.Done? {
      assert Unmarked(c, s);
      ManagerAdvances(c, s);
    } else {
      MeetingAdvances(c, s);
    }
  }
}
