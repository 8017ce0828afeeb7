/** Any number of `exchange` commands, one after the other. A Manager that is itself a target goes on
    to the next command while the other target may still have to read, store and remove its marker
    file; such laggards overlap with the exchanges that follow, and a first target that polls for
    both markers can take a laggard's marker for the new one.
    Models the exchange branches of HierarchicalServiceManagementSystem/service.c under the Manager's
    command loop. */
module ExchangeSessions {
  import opened Trees
  import opened Text
  import opened Exchange
  import opened ExchangeInvariant
  import opened ExchangeTheorems

  datatype Pair = Pair(a: string, b: string)

  /** What a second target has still to do for an earlier exchange, with the FIFO it has open. */
  datatype Lag = Lag(pc: Pc, tm: string, fifo: Fifo)

  /** `c` and `s`: the exchange being carried out. `c.secrets` are the secrets it is to swap, those
      that laggards have still to store included; no step reads them. */
  datatype Session = Session(c: Config, s: State, lags: map<string, Lag>, done: seq<Pair>, todo: seq<Pair>)

  function Begin(root: Tree, secrets: map<string, nat>, commands: seq<Pair>): Session
    requires commands != []
  {
    var c := Config(root, commands[0].a, commands[0].b, secrets);
    Session(c, Init(c), map[], [], commands[1..])
  }

  // ----- steps ----------------------------------------------------------------------------

  datatype Mover = Exchanger(x: Actor) | Laggard(name: string) | Shell

  /** The command in transit is for a service that has not come back to its pipe. */
  predicate Blocked(ss: Session) { ss.s.search.msg.Down? && ss.s.search.msg.tree.name in ss.lags }

  function Partner(c: Config, n: string): string { if n == c.a then c.b else c.a }

  /** A target knows both names from the command line. */
  function Knowing(c: Config, s: State): State {
    if s.meet.p1.Idle? then s else s.(meet := s.meet.(second := Partner(c, s.meet.first)))
  }

  function StepActor(ss: Session, x: Actor): Session {
    match x
    case Token => if Blocked(ss) then ss else ss.(s := StepToken(ss.c, ss.s))
    case FirstTarget => ss.(s := StepFirst(ss.c, Knowing(ss.c, ss.s)))
    case SecondTarget => ss.(s := StepSecond(ss.s))
    case TheManager => ss.(s := StepManager(ss.c, ss.s))
  }

  /** A laggard reads, stores and removes its marker. */
  function StepLag(ss: Session, n: string): Session
    requires n in ss.lags
  {
    var lag, s := ss.lags[n], ss.s;
    match lag.pc
    case Store =>
      ss.(s := s.(meet := s.meet.(secrets := s.meet.secrets[n := StoredSecret(lag.tm)])),
          lags := ss.lags[n := lag.(pc := Unlink)])
    case Unlink => ss.(s := s.(markers := s.markers - {n}), lags := ss.lags - {n})
    case _ =>
      var io := ReadStep(lag.fifo, false, lag.pc, lag.tm, Store);
      ss.(lags := ss.lags[n := Lag(io.pc, io.tm, io.fifo)])
  }

  /** Laggards once the Manager has finished: the second target joins them if it is not done. */
  function LagsNow(ss: Session): map<string, Lag> {
    var m := ss.s.meet;
    if m.p2.Done? || Path(m.first, m.second) !in m.fifos then ss.lags
    else ss.lags[m.second := Lag(m.p2, m.tm2, m.fifos[Path(m.first, m.second)])]
  }

  /** The Manager takes the next command line. Marker files stay as they are. */
  function NextCommand(ss: Session): Session
    requires ss.todo != [] && ss.c.a in ss.c.secrets && ss.c.b in ss.c.secrets
  {
    var c := Config(ss.c.root, ss.todo[0].a, ss.todo[0].b, Swapped(ss.c));
    var s := Init(c).(markers := ss.s.markers, meet := Init(c).meet.(secrets := ss.s.meet.secrets));
    Session(c, s, LagsNow(ss), ss.done + [Pair(ss.c.a, ss.c.b)], ss.todo[1..])
  }

  function Move(ss: Session, x: Mover): Session {
    match x
    case Exchanger(y) => StepActor(ss, y)
    case Laggard(n) => if n in ss.lags then StepLag(ss, n) else ss
    case Shell =>
      if ss.s.mpc.Finish? && ss.todo != [] && ss.c.a in ss.c.secrets && ss.c.b in ss.c.secrets then NextCommand(ss)
      else ss
  }

  function Moves(ss: Session, schedule: seq<Mover>): Session
    decreases |schedule|
  {
    if schedule == [] then ss else Moves(Move(ss, schedule[0]), schedule[1..])
  }

  predicate Over(ss: Session) { ss.todo == [] && Finished(ss.s) && ss.lags == map[] }

  // ----- the same exchange without its laggards -------------------------------------------

  /** The secret a laggard has still to store. */
  predicate Owes(lag: Lag) { lag.pc.WaitR? || lag.pc.Read? || lag.pc.CloseR? || lag.pc.Store? }

  function Due(lag: Lag): nat {
    if lag.pc.WaitR? || lag.pc.Read? then StoredSecret(lag.fifo.data) else StoredSecret(lag.tm)
  }

  function Settled(secrets: map<string, nat>, lags: map<string, Lag>): map<string, nat> {
    map n | n in secrets :: if n in lags && Owes(lags[n]) then Due(lags[n]) else secrets[n]
  }

  /** Without the laggards' markers, and with what they owe. */
  function Veil(s: State, lags: map<string, Lag>): State {
    s.(markers := s.markers - lags.Keys, meet := s.meet.(secrets := Settled(s.meet.secrets, lags)))
  }

  /** The first target has polled, or even opened its FIFO, before the second has been met. */
  predicate Ahead(c: Config, s: State) { Found(c, s.search.log) < 2 && !s.meet.p1.Idle? }

  /** With a first target that is ahead taken back to where its polling began. */
  function Cover(c: Config, s: State): State {
    if Found(c, s.search.log) >= 2 then s
    else if s.meet.p1.Idle? then s.(meet := s.meet.(second := ""))
    else s.(meet := s.meet.(second := "", p1 := Spin1, fifos := NoFifos(c)))
  }

  /** The state of the exchange had the laggards been done at its beginning. */
  function Serial(ss: Session): State { Cover(ss.c, Veil(ss.s, ss.lags)) }

  ghost predicate LagOk(lag: Lag) {
    match lag.pc
    case WaitR(seen) => lag.fifo.wOpens != seen && lag.fifo.readers > 0 && IsMessage(lag.fifo.data)
    case Read => lag.fifo.readers > 0 && IsMessage(lag.fifo.data)
    case CloseR => lag.fifo.readers > 0
    case Store => true
    case Unlink => true
    case _ => false
  }

  /** Laggards have not received the current command, and their markers exist. */
  ghost predicate LagsOk(ss: Session) {
    forall n | n in ss.lags :: LagOk(ss.lags[n]) && n !in ss.s.search.log && n in ss.s.markers && n in ss.s.meet.secrets
  }

  /** How far ahead: it may sleep in its open, with nobody on the other side. */
  ghost predicate AheadOk(c: Config, m: Meeting) {
    var to1 := Path(Partner(c, m.first), m.first);
    match m.p1
    case Spin1 => m.fifos == NoFifos(c)
    case Spin2 => m.fifos == NoFifos(c)
    case OpenR => m.fifos == NoFifos(c)
    case WaitR(seen) =>
      seen == 0 && to1 in Paths(c) && m.fifos == NoFifos(c)[to1 := EnterRead(Fifo(0, 0, 0, 0, ""))]
    case _ => false
  }

  ghost predicate Shape(ss: Session) {
    ValidConfig(ss.c) && LagsOk(ss) && (Ahead(ss.c, ss.s) ==> AheadOk(ss.c, ss.s.meet))
  }

  /** Without its laggards the exchange is in a state it can reach on its own. */
  ghost predicate SessionInv(ss: Session) { Shape(ss) && Reachable(ss.c, Serial(ss)) }
}
