/** The steps of the search keep the invariant of an exchange. */
module ExchangeSearch {
  import opened Trees
  import opened Text
  import opened Exchange
  import opened ExchangeInvariant
  import opened ExchangeSteps

  // ----- what the log says ----------------------------------------------------------------

  /** A command on its way down is for the next service in preorder, which has not seen it. */
  lemma NextVisit(c: Config, q: Search)
    requires ValidConfig(c) && LogInv(c, q) && q.msg.Down? && Found(c, q.log) < 2
    ensures var n := q.msg.tree.name;
      && n !in q.log && n in Preorder(c.root)
      && Found(c, q.log + [n]) == Found(c, q.log) + Bit(IsTarget(c, n))
      && q.log + [n] <= Preorder(c.root)
  {
    var all, n := Preorder(c.root), q.msg.tree.name;
    assert Pending(q)[0] == n;
    assert all[|q.log|] == n;
    assert (q.log + [n]) == all[..|q.log| + 1];
    forall i | 0 <= i < |q.log| ensures q.log[i] != n {
      assert all[i] == q.log[i];
    }
  }

  lemma PendingPush(f: Frame, rest: seq<Frame>)
    ensures PendingIn([f] + rest) == PreorderAll(f.todo) + PendingIn(rest)
    ensures FirstFrames([f] + rest) == Bit(f.role == First) + FirstFrames(rest)
  {
    assert ([f] + rest)[1..] == rest;
  }

  lemma Regroup(a: seq<string>, n: string, b: seq<string>, rest: seq<string>)
    ensures (a + [n]) + ([] + (b + rest)) == a + (([n] + b) + rest)
  {
  }

  lemma CountsGrow(c: Config, log: seq<string>, counts: seq<nat>, n: string)
    requires |counts| == |log| && forall i :: 0 <= i < |log| ==> counts[i] == Found(c, log[..i])
    ensures forall i :: 0 <= i < |log| + 1 ==> (counts + [Found(c, log)])[i] == Found(c, (log + [n])[..i])
  {
    forall i | 0 <= i < |log| + 1 ensures (log + [n])[..i] == log[..i] {
    }
    assert log[..|log|] == log;
  }

  /** Log and counts after one more service has received the command. */
  lemma LogGrows(c: Config, q: Search, q': Search)
    requires ValidConfig(c) && LogInv(c, q) && q.msg.Down? && q.msg.g == Found(c, q.log) < 2
    requires q'.log == q.log + [q.msg.tree.name] && q'.counts == q.counts + [q.msg.g]
    requires Found(c, q'.log) < 2 ==>
      !q'.msg.Down? && PendingIn(q'.frames) == PreorderAll(q.msg.tree.kids) + PendingIn(q.frames)
    ensures LogInv(c, q')
  {
    var t := q.msg.tree;
    NextVisit(c, q);
    CountsGrow(c, q.log, q.counts, t.name);
    Regroup(q.log, t.name, PreorderAll(t.kids), PendingIn(q.frames));
  }

  /** Moving the token without a visit keeps log and pending services. */
  lemma LogStays(c: Config, q: Search, q': Search)
    requires LogInv(c, q) && q'.log == q.log && q'.counts == q.counts
    requires Found(c, q.log) < 2 ==> Pending(q') == Pending(q)
    ensures LogInv(c, q')
  {
  }

  // ----- steps of the search alone --------------------------------------------------------

  lemma DeliverKeeps(c: Config, q: Search)
    requires LogInv(c, q) && TokenInv(c, q, true) && q.msg.Up?
    ensures LogInv(c, Deliver(q)) && TokenInv(c, Deliver(q), true)
    ensures FirstFrames(Deliver(q).frames) == FirstFrames(q.frames)
  {
    DeliverKeepsPending(q, Found(c, q.log));
    LogStays(c, q, Deliver(q));
    DeliverKeepsToken(c, q);
  }

  lemma DeliverKeepsPending(q: Search, found: nat)
    requires q.frames != [] && q.msg.Up? && q.msg.g == found
    ensures found < 2 ==> Pending(Deliver(q)) == Pending(q)
    ensures FirstFrames(Deliver(q).frames) == FirstFrames(q.frames)
  {
    PendingPush(Deliver(q).frames[0], q.frames[1..]);
    PendingPush(q.frames[0], q.frames[1..]);
    assert q.frames == [q.frames[0]] + q.frames[1..];
  }

  lemma DeliverKeepsToken(c: Config, q: Search)
    requires TokenInv(c, q, true) && q.msg.Up?
    ensures TokenInv(c, Deliver(q), true)
  {
    assert forall i :: 1 <= i < |q.frames| ==> Deliver(q).frames[i] == q.frames[i];
  }

  lemma AskKeeps(c: Config, q: Search)
    requires LogInv(c, q) && TokenInv(c, q, true) && q.msg.NoMsg? && q.frames[0].todo != []
    ensures LogInv(c, Ask(q)) && TokenInv(c, Ask(q), true)
    ensures FirstFrames(Ask(q).frames) == FirstFrames(q.frames)
  {
    AskKeepsPending(q);
    LogStays(c, q, Ask(q));
    AskKeepsToken(c, q);
  }

  lemma AskKeepsPending(q: Search)
    requires q.frames != [] && q.msg.NoMsg? && q.frames[0].todo != []
    ensures Pending(Ask(q)) == Pending(q) && FirstFrames(Ask(q).frames) == FirstFrames(q.frames)
  {
    PendingPush(Ask(q).frames[0], q.frames[1..]);
    PendingPush(q.frames[0], q.frames[1..]);
    assert q.frames == [q.frames[0]] + q.frames[1..];
  }

  lemma AskKeepsToken(c: Config, q: Search)
    requires TokenInv(c, q, true) && q.msg.NoMsg? && q.frames[0].todo != [] && Found(c, q.log) <= 2
    ensures TokenInv(c, Ask(q), true)
  {
    assert forall i :: 1 <= i < |q.frames| ==> Ask(q).frames[i] == q.frames[i];
  }

  lemma AnswerKeeps(c: Config, q: Search)
    requires LogInv(c, q) && TokenInv(c, q, true) && q.msg.NoMsg?
    requires q.frames[0].todo == [] && q.frames[0].role != Root
    ensures LogInv(c, Answer(q)) && TokenInv(c, Answer(q), true)
    ensures FirstFrames(Answer(q).frames) == FirstFrames(q.frames) - Bit(q.frames[0].role == First)
  {
    PendingPush(q.frames[0], q.frames[1..]);
    assert q.frames == [q.frames[0]] + q.frames[1..];
    LogStays(c, q, Answer(q));
  }

  /** When the Manager's child loop ends, both targets have been met. */
  lemma SearchEnds(c: Config, q: Search)
    requires ValidConfig(c) && LogInv(c, q) && TokenInv(c, q, true) && q.msg.NoMsg?
    requires q.frames[0].todo == [] && q.frames[0].role == Root
    ensures Found(c, q.log) == 2 && q.frames[1..] == []
    ensures LogInv(c, q.(frames := [])) && TokenInv(c, q.(frames := []), false)
    ensures FirstFrames(q.frames) == 0
  {
    assert |q.frames| == 1;
    var rest := q.frames[1..];
    assert rest == [] && PendingIn(rest) == [] && FirstFrames(rest) == 0;
    assert PreorderAll(q.frames[0].todo) == [];
    assert Pending(q) == [];
    assert q.log + Pending(q) == q.log;
  }

  // ----- a service receives the command ---------------------------------------------------

  lemma ReceiveKeepsSearch(c: Config, s: State)
    requires ValidConfig(c) && LogInv(c, s.search) && TokenInv(c, s.search, true) && s.search.msg.Down?
    ensures var q, q' := s.search, Receive(c, s).search; var n := q.msg.tree.name;
      && LogInv(c, q') && TokenInv(c, q', true)
      && n !in q.log && n in Preorder(c.root) && q'.log == q.log + [n]
      && Found(c, q'.log) == Found(c, q.log) + Bit(IsTarget(c, n))
      && FirstFrames(q'.frames) == FirstFrames(q.frames) + Bit(IsTarget(c, n) && Found(c, q.log) == 0)
  {
    var q, q' := s.search, Receive(c, s).search;
    NextVisit(c, q);
    ReceiveKeepsPending(c, s);
    LogGrows(c, q, q');
    ReceiveKeepsToken(c, s);
  }

  lemma ReceiveKeepsPending(c: Config, s: State)
    requires s.search.msg.Down? && s.search.msg.g < 2
    ensures var q, q' := s.search, Receive(c, s).search; var target := IsTarget(c, q.msg.tree.name);
      && (!(target && q.msg.g == 1) ==>
          !q'.msg.Down? && PendingIn(q'.frames) == PreorderAll(q.msg.tree.kids) + PendingIn(q.frames))
      && FirstFrames(q'.frames) == FirstFrames(q.frames) + Bit(target && q.msg.g == 0)
  {
    var q := s.search;
    PendingPush(Frame(Relay, q.msg.tree.kids, q.msg.g), q.frames);
    PendingPush(Frame(First, q.msg.tree.kids, q.msg.g + 1), q.frames);
  }

  lemma ReceiveKeepsToken(c: Config, s: State)
    requires TokenInv(c, s.search, true) && s.search.msg.Down?
    requires var n := s.search.msg.tree.name;
      Found(c, s.search.log + [n]) == Found(c, s.search.log) + Bit(IsTarget(c, n))
    ensures TokenInv(c, Receive(c, s).search, true)
  {
    var q, q' := s.search, Receive(c, s).search;
    assert q'.log == q.log + [q.msg.tree.name];
    assert q'.frames == q.frames || q'.frames[1..] == q.frames;
  }

  lemma MarkersGrow(m: Meeting, m': Meeting, made1: bool, made1': bool)
    requires m'.p1 == m.p1 && !m.p1.Done?
    requires (made1 ==> made1' && m'.first == m.first)
    ensures !made1 && made1' ==> Markers(m', made1', false) == Markers(m, made1, false) + {m'.first}
    ensures made1 == made1' && !m'.p2.Done? ==> Markers(m', made1', true) == Markers(m, made1, false) + {m'.second}
  {
  }

  /** The first target met: from now on it blocks its parent, and its marker exists. */
  lemma FirstMet(c: Config, s: State)
    requires ValidConfig(c) && Inv(c, s) && s.search.msg.Down? && Found(c, s.search.log) == 0
    requires IsTarget(c, s.search.msg.tree.name)
    ensures Inv(c, Receive(c, s))
  {
    var s' := Receive(c, s);
    ReceiveKeepsSearch(c, s);
    MarkersGrow(s.meet, s'.meet, false, true);
  }

  lemma RelayMet(c: Config, s: State)
    requires ValidConfig(c) && Inv(c, s) && s.search.msg.Down?
    requires !IsTarget(c, s.search.msg.tree.name)
    ensures Inv(c, Receive(c, s))
  {
    ReceiveKeepsSearch(c, s);
  }

  /** With both targets met, the rendezvous begins on unused FIFOs. */
  lemma MeetingBegins(c: Config, m: Meeting, second: string)
    requires ValidConfig(c) && ApartInv(c, m)
    requires IsTarget(c, m.first) && IsTarget(c, second) && m.first != second
    ensures MeetingInv(c, m.(second := second, p2 := OpenW))
  {
    var m' := m.(second := second, p2 := OpenW);
    var to1, to2 := Path(second, m.first), Path(m.first, second);
    assert Paths(c) == {to1, to2};
    assert c.secrets == c.secrets[m.first := c.secrets[m.first]][second := c.secrets[second]];
    assert SecretsInv(c, m');
    var x1, x2 := SecretBytes(c.secrets[second]), SecretBytes(c.secrets[m.first]);
    TransferBegins(m.fifos, m.p1, m.tm1, m.tm2, to1, to2, x1, x2);
  }

  lemma TransferBegins(fifos: map<string, Fifo>, p1: Pc, tm1: string, tm2: string,
                       to1: string, to2: string, x1: string, x2: string)
    requires fifos.Keys == {to1, to2} && fifos[to1] == fifos[to2] == Fifo(0, 0, 0, 0, "")
    requires p1.Idle? || Spinning(p1)
    ensures TransferInv(fifos, p1, tm1, OpenW, tm2, to1, to2, x1, x2)
  {
  }

  lemma SecondMet(c: Config, s: State)
    requires ValidConfig(c) && Inv(c, s) && s.search.msg.Down? && Found(c, s.search.log) == 1
    requires IsTarget(c, s.search.msg.tree.name)
    ensures Inv(c, Receive(c, s))
  {
    var s' := Receive(c, s);
    ReceiveKeepsSearch(c, s);
    MarkersGrow(s.meet, s'.meet, !s.mode.Manager?, !s.mode.Manager?);
    assert s.meet.first != s.search.msg.tree.name;
    MeetingBegins(c, s.meet, s.search.msg.tree.name);
  }

  // ----- the other steps of the token -----------------------------------------------------

  lemma DeliverKeepsInv(c: Config, s: State)
    requires Inv(c, s) && s.search.msg.Up?
    ensures Inv(c, s.(search := Deliver(s.search)))
  {
    DeliverKeeps(c, s.search);
  }

  lemma AskKeepsInv(c: Config, s: State)
    requires Inv(c, s) && s.search.msg.NoMsg? && s.search.frames != [] && s.search.frames[0].todo != []
    ensures Inv(c, s.(search := Ask(s.search)))
  {
    AskKeeps(c, s.search);
  }

  lemma RelayReturns(c: Config, s: State)
    requires Inv(c, s) && s.search.msg.NoMsg? && s.search.frames != [] && s.search.frames[0].todo == []
    requires s.search.frames[0].role.Relay?
    ensures Inv(c, s.(search := Answer(s.search)))
  {
    AnswerKeeps(c, s.search);
  }

  /** The first target found no other target below it: it answers and waits for the markers. */
  lemma FirstGoesWaiting(c: Config, s: State)
    requires Inv(c, s) && s.search.msg.NoMsg? && s.search.frames != [] && s.search.frames[0].todo == []
    requires s.search.frames[0].role.First? && s.search.frames[0].g != 2
    ensures Inv(c, Return(c, s))
  {
    AnswerKeeps(c, s.search);
  }

  /** The first target has the second one below it: it exchanges before it answers. */
  lemma FirstStartsDirectly(c: Config, s: State)
    requires Inv(c, s) && s.search.msg.NoMsg? && s.search.frames != [] && s.search.frames[0].todo == []
    requires s.search.frames[0].role.First? && s.search.frames[0].g == 2 && s.meet.p1.Idle?
    ensures Inv(c, Return(c, s))
  {
    OwnStepKeeps(c, s.meet, OpenR, s.meet.p2);
  }

  lemma ManagerReturns(c: Config, s: State)
    requires ValidConfig(c) && Inv(c, s) && s.mpc.Searching? && s.search.msg.NoMsg?
    requires s.search.frames != [] && s.search.frames[0].todo == [] && s.search.frames[0].role.Root?
    ensures Inv(c, Return(c, s))
  {
    SearchEnds(c, s.search);
    if s.mode.Manager? {
      OwnStepKeeps(c, s.meet, OpenR, s.meet.p2);
    }
  }

  lemma TokenKeepsInv(c: Config, s: State)
    requires ValidConfig(c) && Inv(c, s)
    ensures Inv(c, StepToken(c, s))
  {
    var q := s.search;
    if q.msg.Down? {
      if !IsTarget(c, q.msg.tree.name) {
        RelayMet(c, s);
      } else if Found(c, q.log) == 0 {
        FirstMet(c, s);
      } else {
        SecondMet(c, s);
      }
    } else if q.frames == [] {
    } else if q.msg.Up? {
      DeliverKeepsInv(c, s);
    } else if q.frames[0].todo != [] {
      AskKeepsInv(c, s);
    } else if q.frames[0].role.Relay? {
      RelayReturns(c, s);
    } else if q.frames[0].role.Root? {
      ManagerReturns(c, s);
    } else if q.frames[0].g != 2 {
      FirstGoesWaiting(c, s);
    } else if s.meet.p1.Idle? {
      FirstStartsDirectly(c, s);
    }
  }
}
