/** What every step of an exchange keeps. */
module ExchangeInvariant {
  import opened Trees
  import opened Text
  import opened Exchange

  // ----- the search -----------------------------------------------------------------------

  /** Services the search has still to visit, in the order it would visit them. */
  ghost function PendingIn(frames: seq<Frame>): seq<string> {
    if frames == [] then [] else PreorderAll(frames[0].todo) + PendingIn(frames[1..])
  }

  ghost function Pending(q: Search): seq<string> {
    (if q.msg.Down? then Preorder(q.msg.tree) else []) + PendingIn(q.frames)
  }

  ghost function FirstFrames(frames: seq<Frame>): nat {
    if frames == [] then 0 else Bit(frames[0].role == First) + FirstFrames(frames[1..])
  }

  /** The log is a preorder prefix that stops at the second target; each service received the
      number of targets logged before it; log and pending services make up the whole tree. */
  ghost predicate LogInv(c: Config, q: Search) {
    var all := Preorder(c.root);
    && |q.counts| == |q.log| > 0
    && q.log <= all && q.log[0] == c.root.name
    && (forall i :: 0 <= i < |q.log| ==> q.counts[i] == Found(c, q.log[..i]))
    && (Found(c, q.log) < 2 ==> q.log + Pending(q) == all)
    && (Found(c, q.log) == 2 ==> IsTarget(c, q.log[|q.log| - 1]))
  }

  /** Where the token is, and that it carries the number of targets met so far. */
  ghost predicate TokenInv(c: Config, q: Search, searching: bool) {
    var found := Found(c, q.log);
    && (searching ==>
        && q.frames != [] && q.frames[|q.frames| - 1].role == Root
        && (forall i :: 0 <= i < |q.frames| - 1 ==> q.frames[i].role != Root))
    && (!searching ==> q.frames == [] && q.msg == NoMsg && found == 2)
    && (q.msg.Down? ==> q.msg.g == found < 2)
    && (q.msg.Up? ==> q.msg.g == found)
    && (q.msg == NoMsg && q.frames != [] ==>
        q.frames[0].g == found && (found == 2 ==> q.frames[0].todo == []))
    && (forall i :: 0 <= i < |q.frames| && q.frames[i].role == First ==> 1 <= q.frames[i].g <= found)
  }

  // ----- who exchanges, and when ----------------------------------------------------------

  predicate Spinning(pc: Pc) { pc.Spin1? || pc.Spin2? }

  /** The Manager has left its wait. */
  predicate Closing(mpc: ManagerPc) { mpc.Unlink1? || mpc.Unlink2? || mpc.Print? || mpc.Finish? }

  /** The first target holds the token while it exchanges. */
  ghost predicate Holding(q: Search) {
    q.msg.NoMsg? && q.frames != [] && q.frames[0].role.First? && q.frames[0].todo == [] && q.frames[0].g == 2
  }

  ghost predicate ModeInv(c: Config, s: State) {
    var found, firsts := Found(c, s.search.log), FirstFrames(s.search.frames);
    var p1, p2 := s.meet.p1, s.meet.p2;
    && (s.mode.Manager? <==> IsTarget(c, c.root.name))
    && (found < 2 ==> p2.Idle?)
    && (found == 2 ==> !p2.Idle?)
    && match s.mode
       case Unset =>
         && p1.Idle? && firsts == Bit(found >= 1) && s.mpc.Searching?
       case Waiting =>
         && firsts == 0 && !p1.Idle? && !p1.Report? && found >= 1 && !s.mpc.Exchanging?
       case Direct =>
         && found == 2 && !p1.Idle? && !Spinning(p1) && !s.mpc.Exchanging?
         && (if p1.Unlink? || p1.Done? then firsts == 0
             else s.mpc.Searching? && Holding(s.search) && firsts == 1)
       case Manager =>
         && s.meet.first == c.root.name && firsts == 0
         && !Spinning(p1) && !p1.Report? && !p1.Unlink?
         && (p1.Idle? <==> s.mpc.Searching?)
         && (p1.Done? <==> Closing(s.mpc))
         && !s.mpc.Check1? && !s.mpc.Check2?
  }

  ghost predicate NamesInv(c: Config, log: seq<string>, m: Meeting) {
    && (Found(c, log) >= 1 ==> IsTarget(c, m.first) && m.first in log)
    && (Found(c, log) == 2 ==> IsTarget(c, m.second) && m.second != m.first)
  }

  ghost function Markers(m: Meeting, made1: bool, made2: bool): set<string> {
    (if made1 && !m.p1.Done? then {m.first} else {}) + (if made2 && !m.p2.Done? then {m.second} else {})
  }

  /** A marker file exists from the target's receipt of the command until it has stored the
      other's secret. */
  ghost predicate MarkerInv(c: Config, s: State) {
    && s.markers == Markers(s.meet, !s.mode.Manager? && Found(c, s.search.log) >= 1, Found(c, s.search.log) == 2)
    && (s.meet.p1.Spin2? ==> c.a in s.markers) && (s.mpc.Check2? ==> c.a !in s.markers)
    && (!s.mode.Manager? && Closing(s.mpc) ==> s.markers == {})
    && s.linked == (if s.mpc.Print? || s.mpc.Finish? then {}
                    else if s.mpc.Unlink2? then Paths(c) - {Path(c.a, c.b)}
                    else Paths(c))
  }

  // ----- the rendezvous -------------------------------------------------------------------

  /** How far the first target is: 1-3 reading, 5-7 writing, 9 stored. */
  ghost function Progress1(pc: Pc): nat {
    match pc
    case Idle => 0 case Spin1 => 0 case Spin2 => 0 case OpenR => 0
    case WaitR(_) => 1 case Read => 2 case CloseR => 3
    case OpenW => 4 case WaitW(_) => 5 case Write => 6 case CloseW => 7
    case Store => 8
    case Report => 9 case Unlink => 9 case Done => 9 case Crashed => 99
  }

  /** How far the second target is: 1-3 writing, 5-7 reading, 9 stored. */
  ghost function Progress2(pc: Pc): nat {
    match pc
    case Idle => 0 case OpenW => 0
    case WaitW(_) => 1 case Write => 2 case CloseW => 3
    case OpenR => 4 case WaitR(_) => 5 case Read => 6 case CloseR => 7
    case Store => 8
    case Unlink => 9 case Done => 9
    case Spin1 => 99 case Spin2 => 99 case Report => 99 case Crashed => 99
  }

  /** What a FIFO holds when the first target is `f` steps far and the second `g`. `to1` and `to2`
      tell whether it carries the secret `x1` to the first and `x2` to the second target; both
      are true when the two directions share one path. */
  ghost function FifoAt(f: nat, g: nat, to1: bool, to2: bool, x1: string, x2: string): Fifo {
    Fifo(Bit(to1 && 1 <= f <= 3) + Bit(to2 && 5 <= g <= 7),
         Bit(to1 && 1 <= g <= 3) + Bit(to2 && 5 <= f <= 7),
         Bit(to1 && f >= 1) + Bit(to2 && g >= 5),
         Bit(to1 && g >= 1) + Bit(to2 && f >= 5),
         if to1 && g >= 3 && f <= 2 then x1 else if to2 && f >= 7 && g <= 6 then x2 else "")
  }

  /** The order in which the two parties can advance. */
  ghost predicate InStep(f: nat, g: nat) {
    && f <= 9 && g <= 9
    && (g >= 2 ==> f >= 1) && (f >= 2 ==> g >= 1) && (f >= 3 ==> g >= 3)
    && (f >= 6 ==> g >= 5) && (g >= 6 ==> f >= 5) && (g >= 7 ==> f >= 7)
  }

  /** What a party asleep in an open saw of the other side when it went to sleep. */
  ghost predicate SeenInv(p1: Pc, p2: Pc, shared: bool) {
    && (p1.WaitR? ==> p1.seen == 0) && (p2.WaitW? ==> p2.seen == 0)
    && (p1.WaitW? ==> p1.seen == Bit(shared)) && (p2.WaitR? ==> p2.seen == Bit(shared))
  }

  /** The two transfers: `x1` goes through `to1` to the first target, `x2` through `to2` to the
      second; the paths may be the same. */
  ghost predicate TransferInv(fifos: map<string, Fifo>, p1: Pc, tm1: string, p2: Pc, tm2: string,
                              to1: string, to2: string, x1: string, x2: string)
  {
    var f, g := Progress1(p1), Progress2(p2);
    && InStep(f, g) && SeenInv(p1, p2, to1 == to2)
    && fifos.Keys == {to1, to2}
    && fifos[to1] == FifoAt(f, g, true, to1 == to2, x1, x2)
    && fifos[to2] == FifoAt(f, g, to1 == to2, true, x1, x2)
    && (f >= 3 ==> tm1 == x1) && (g >= 7 ==> tm2 == x2)
  }

  /** Who has stored the other's secret: nothing else ever changes. */
  ghost predicate SecretsInv(c: Config, m: Meeting) {
    && m.first in c.secrets && m.second in c.secrets && m.first != m.second
    && c.secrets[m.first] < 0x8000_0000 && c.secrets[m.second] < 0x8000_0000
    && m.secrets == c.secrets[m.first := c.secrets[if Progress1(m.p1) == 9 then m.second else m.first]]
                             [m.second := c.secrets[if Progress2(m.p2) == 9 then m.first else m.second]]
  }

  /** Both targets have been met. */
  ghost predicate MeetingInv(c: Config, m: Meeting) {
    && SecretsInv(c, m)
    && Paths(c) == {Path(m.first, m.second), Path(m.second, m.first)}
    && TransferInv(m.fifos, m.p1, m.tm1, m.p2, m.tm2, Path(m.second, m.first), Path(m.first, m.second),
                   SecretBytes(c.secrets[m.second]), SecretBytes(c.secrets[m.first]))
  }

  /** Not both targets have been met. */
  ghost predicate ApartInv(c: Config, m: Meeting) {
    (m.p1.Idle? || Spinning(m.p1)) && m.fifos == NoFifos(c) && m.secrets == c.secrets
  }

  ghost predicate Inv(c: Config, s: State) {
    && LogInv(c, s.search)
    && TokenInv(c, s.search, s.mpc.Searching?)
    && NamesInv(c, s.search.log, s.meet)
    && ModeInv(c, s)
    && MarkerInv(c, s)
    && (if Found(c, s.search.log) == 2 then MeetingInv(c, s.meet) else ApartInv(c, s.meet))
  }
}
