/** `exchange A B`: the early-stopping search that passes the found-count down and up the tree,
    running concurrently with the two targets' rendezvous over two FIFOs and two marker files
    and with the Manager's watch for completion.
    Models HierarchicalServiceManagementSystem/service.c, the exchange branches of `main`.

    Four actors interleave freely: the search (one control token, since every service on the
    path to it is blocked reading from a child), the first target met, the second target met,
    and the Manager after its search. One step is one system call, or several of which the other
    actors can see only one: taking the command, creating the marker and, for the second target,
    replying are one step, since only the marker is polled and the reply is read by a parent that
    waits for it. */
module Exchange {
  import opened Trees
  import opened Text

  // ----- FIFOs, after fifo_open, pipe_read, pipe_write and pipe_release -------------------

  /** `rOpens` and `wOpens` count the opens so far: an open that finds no partner sleeps until
      the other counter moves. */
  datatype Fifo = Fifo(readers: nat, writers: nat, rOpens: nat, wOpens: nat, data: string)

  function EnterRead(f: Fifo): Fifo { f.(readers := f.readers + 1, rOpens := f.rOpens + 1) }

  function EnterWrite(f: Fifo): Fifo { f.(writers := f.writers + 1, wOpens := f.wOpens + 1) }

  /** Unread bytes vanish with the last descriptor. */
  function Settle(f: Fifo): Fifo { if f.readers == 0 && f.writers == 0 then f.(data := "") else f }

  function LeaveRead(f: Fifo): Fifo
    requires f.readers > 0
  {
    Settle(f.(readers := f.readers - 1))
  }

  function LeaveWrite(f: Fifo): Fifo
    requires f.writers > 0
  {
    Settle(f.(writers := f.writers - 1))
  }

  // ----- state ----------------------------------------------------------------------------

  /** `root` is the Manager; `a` and `b` are the two names on the command line. */
  datatype Config = Config(root: Tree, a: string, b: string, secrets: map<string, nat>)

  ghost predicate ValidConfig(c: Config) {
    && NoDup(Preorder(c.root))
    && c.a != c.b && c.a in Preorder(c.root) && c.b in Preorder(c.root)
    && c.secrets.Keys == (set n | n in Preorder(c.root))
    && forall n :: n in c.secrets ==> c.secrets[n] < 0x8000_0000   // rand()
  }

  predicate IsTarget(c: Config, n: string) { n == c.a || n == c.b }

  function Bit(p: bool): nat { if p then 1 else 0 }

  /** The number of targets among distinct names. */
  function Found(c: Config, names: seq<string>): nat { Bit(c.a in names) + Bit(c.b in names) }

  /** The FIFO in which `from` writes its secret for `to`. Two names can share one path:
      "A" and "A_to_A" do. */
  function Path(from: string, to: string): string { from + "_to_" + to }

  datatype Role = Root | Relay | First

  /** A service blocked in its child loop: children not asked yet, and its count. */
  datatype Frame = Frame(role: Role, todo: seq<Tree>, g: nat)

  datatype Msg = NoMsg | Down(tree: Tree, g: nat) | Up(g: nat)

  /** Where a target stands in its exchange. */
  datatype Pc =
    | Idle | Spin1 | Spin2
    | OpenR | WaitR(seen: nat) | Read | CloseR
    | OpenW | WaitW(seen: nat) | Write | CloseW
    | Store | Report | Unlink | Done | Crashed

  /** Why the first target exchanges: another target lies below it, it was told to wait for the
      marker files, or it is the Manager itself. */
  datatype Mode = Unset | Direct | Waiting | Manager

  datatype ManagerPc = Searching | Exchanging | Check1 | Check2 | Unlink1 | Unlink2 | Print | Finish

  /** The search: its one control token and what it has printed. */
  datatype Search = Search(
    frames: seq<Frame>,          // innermost blocked service first, the Manager last
    msg: Msg,                    // the one command or reply in transit
    log: seq<string>,            // services that printed "has received", in order
    counts: seq<nat>)            // the found-count each of them received

  /** The two targets in the order the search met them. */
  datatype Meeting = Meeting(
    first: string, p1: Pc, tm1: string,
    second: string, p2: Pc, tm2: string,
    fifos: map<string, Fifo>,
    secrets: map<string, nat>)

  datatype State = State(
    search: Search, mode: Mode, meet: Meeting, mpc: ManagerPc,
    markers: set<string>,        // existing <name>.txt files
    linked: set<string>)         // existing FIFO paths

  function Paths(c: Config): set<string> { {Path(c.a, c.b), Path(c.b, c.a)} }

  function NoFifos(c: Config): map<string, Fifo> { map p | p in Paths(c) :: Fifo(0, 0, 0, 0, "") }

  function Init(c: Config): State {
    var isTarget := IsTarget(c, c.root.name);
    State(Search([Frame(Root, c.root.kids, Bit(isTarget))], NoMsg, [c.root.name], [0]),
          if isTarget then Manager else Unset,
          Meeting(c.root.name, Idle, "", "", Idle, "", NoFifos(c), c.secrets),
          Searching, {}, Paths(c))
  }

  // ----- steps of the search --------------------------------------------------------------

  /** A service takes the command off its pipe. */
  function Receive(c: Config, s: State): State
    requires s.search.msg.Down?
  {
    var t, g := s.search.msg.tree, s.search.msg.g;
    var q := s.search.(log := s.search.log + [t.name], counts := s.search.counts + [g]);
    if !IsTarget(c, t.name) then
      s.(search := q.(msg := NoMsg, frames := [Frame(Relay, t.kids, g)] + q.frames))
    else if g + 1 == 2 then
      s.(search := q.(msg := Up(2)),
         meet := s.meet.(second := t.name, p2 := OpenW), markers := s.markers + {t.name})
    else
      s.(search := q.(msg := NoMsg, frames := [Frame(First, t.kids, g + 1)] + q.frames),
         meet := s.meet.(first := t.name), markers := s.markers + {t.name})
  }

  /** A blocked service reads its child's reply. The first target keeps its own count unless
      the reply is 2; everyone else adopts the reply. */
  function Deliver(q: Search): Search
    requires q.msg.Up? && q.frames != []
  {
    var f, r := q.frames[0], q.msg.g;
    var f' := if r == 2 then f.(g := 2, todo := [])
              else if f.role == First then f else f.(g := r);
    q.(msg := NoMsg, frames := [f'] + q.frames[1..])
  }

  /** The child loop goes on to the next child. */
  function Ask(q: Search): Search
    requires q.frames != [] && q.frames[0].todo != []
  {
    var f := q.frames[0];
    q.(msg := Down(f.todo[0], f.g), frames := [f.(todo := f.todo[1..])] + q.frames[1..])
  }

  /** A service answers its parent. */
  function Answer(q: Search): Search
    requires q.frames != []
  {
    q.(msg := Up(q.frames[0].g), frames := q.frames[1..])
  }

  /** The child loop has ended. The first target, with the second below it, keeps its parent
      waiting until it has exchanged. */
  function Return(c: Config, s: State): State
    requires s.search.frames != []
  {
    var f := s.search.frames[0];
    match f.role
    case Relay => s.(search := Answer(s.search))
    case First =>
      if f.g != 2 then s.(search := Answer(s.search), mode := Waiting, meet := s.meet.(p1 := Spin1))
      else if s.meet.p1 == Idle then s.(mode := Direct, meet := s.meet.(p1 := OpenR))
      else s
    case Root =>
      var s' := s.(search := s.search.(frames := s.search.frames[1..]));
      if IsTarget(c, c.root.name) then s'.(mpc := Exchanging, meet := s.meet.(p1 := OpenR))
      else s'.(mpc := Check1)
  }

  function StepToken(c: Config, s: State): State {
    var q := s.search;
    if q.msg.Down? then Receive(c, s)
    else if q.frames == [] then s
    else if q.msg.Up? then s.(search := Deliver(q))
    else if q.frames[0].todo == [] then Return(c, s)
    else s.(search := Ask(q))
  }

  // ----- steps of the targets -------------------------------------------------------------

  /** Outcome of one FIFO system call: the next program point, the read buffer, the FIFO. */
  datatype Io = Io(pc: Pc, tm: string, fifo: Fifo)

  /** Open for reading, read, close; then `next`. Opening a path that is not there fails. An
      empty FIFO blocks its reader while a writer is left; with none, read returns 0 bytes and
      the reader would go on with an uninitialised buffer. */
  function ReadStep(fifo: Fifo, present: bool, pc: Pc, tm: string, next: Pc): Io {
    match pc
    case OpenR =>
      if !present then Io(Crashed, tm, fifo)
      else Io(if fifo.writers > 0 then Read else WaitR(fifo.wOpens), tm, EnterRead(fifo))
    case WaitR(seen) => Io(if fifo.wOpens != seen then Read else pc, tm, fifo)
    case Read =>
      if fifo.data != "" then
        var n := if |fifo.data| < BUFFER_LEN then |fifo.data| else BUFFER_LEN;
        Io(CloseR, fifo.data[..n], fifo.(data := fifo.data[n..]))
      else Io(if fifo.writers > 0 then Read else Crashed, tm, fifo)
    case CloseR => if fifo.readers > 0 then Io(next, tm, LeaveRead(fifo)) else Io(Crashed, tm, fifo)
    case _ => Io(pc, tm, fifo)
  }

  /** Open for writing, write `bytes`, close; then `next`. Without a reader, write raises
      SIGPIPE. */
  function WriteStep(fifo: Fifo, present: bool, pc: Pc, tm: string, bytes: string, next: Pc): Io {
    match pc
    case OpenW =>
      if !present then Io(Crashed, tm, fifo)
      else Io(if fifo.readers > 0 then Write else WaitW(fifo.rOpens), tm, EnterWrite(fifo))
    case WaitW(seen) => Io(if fifo.rOpens != seen then Write else pc, tm, fifo)
    case Write =>
      if fifo.readers == 0 then Io(Crashed, tm, fifo)
      else Io(CloseW, tm, fifo.(data := fifo.data + bytes))
    case CloseW => if fifo.writers > 0 then Io(next, tm, LeaveWrite(fifo)) else Io(Crashed, tm, fifo)
    case _ => Io(pc, tm, fifo)
  }

  predicate Reading(pc: Pc) { pc.OpenR? || pc.WaitR? || pc.Read? || pc.CloseR? }

  predicate Writing(pc: Pc) { pc.OpenW? || pc.WaitW? || pc.Write? || pc.CloseW? }

  /** A FIFO call of a party that reads from `r` and writes `bytes` to `w`, and goes on to
      `afterRead` and `afterWrite`. */
  function FifoCall(fifos: map<string, Fifo>, linked: set<string>, pc: Pc, tm: string,
                    r: string, w: string, bytes: string, afterRead: Pc, afterWrite: Pc): (Io, map<string, Fifo>)
  {
    var path := if Reading(pc) then r else w;
    if (!Reading(pc) && !Writing(pc)) || path !in fifos then (Io(pc, tm, Fifo(0, 0, 0, 0, "")), fifos)
    else
      var io := if Reading(pc) then ReadStep(fifos[r], r in linked, pc, tm, afterRead)
                else WriteStep(fifos[w], w in linked, pc, tm, bytes, afterWrite);
      (io, fifos[path := io.fifo])
  }

  /** What `name` sends. */
  function OwnBytes(m: Meeting, name: string): string {
    if name in m.secrets then SecretBytes(m.secrets[name]) else ""
  }

  /** The first target reads the other's secret, then writes its own. */
  function FirstIo(m: Meeting, linked: set<string>): Meeting {
    var (io, fifos) := FifoCall(m.fifos, linked, m.p1, m.tm1, Path(m.second, m.first), Path(m.first, m.second),
                                OwnBytes(m, m.first), OpenW, Store);
    m.(p1 := io.pc, tm1 := io.tm, fifos := fifos)
  }

  /** The second target writes its secret, then reads the other's. */
  function SecondIo(m: Meeting, linked: set<string>): Meeting {
    var (io, fifos) := FifoCall(m.fifos, linked, m.p2, m.tm2, Path(m.first, m.second), Path(m.second, m.first),
                                OwnBytes(m, m.second), Store, OpenR);
    m.(p2 := io.pc, tm2 := io.tm, fifos := fifos)
  }

  /** The first target: wait for both markers if told to, exchange, store, report if it holds
      the token, remove its marker. */
  function StepFirst(c: Config, s: State): State {
    var m := s.meet;
    match m.p1
    case Spin1 => if c.a in s.markers then s.(meet := m.(p1 := Spin2)) else s
    case Spin2 => s.(meet := m.(p1 := if c.b in s.markers then OpenR else Spin1))
    case Store =>
      var m' := m.(secrets := m.secrets[m.first := StoredSecret(m.tm1)]);
      if s.mode == Direct then s.(meet := m'.(p1 := Report))
      else if s.mode == Manager then s.(meet := m'.(p1 := Done), mpc := Unlink1)
      else s.(meet := m'.(p1 := Unlink))
    case Report =>
      if s.search.frames == [] then s
      else s.(search := Answer(s.search), meet := m.(p1 := Unlink))
    case Unlink => s.(meet := m.(p1 := Done), markers := s.markers - {m.first})
    case _ => s.(meet := FirstIo(m, s.linked))
  }

  /** The second target: exchange, store, remove its marker. */
  function StepSecond(s: State): State {
    var m := s.meet;
    match m.p2
    case Store =>
      s.(meet := m.(secrets := m.secrets[m.second := StoredSecret(m.tm2)], p2 := Unlink))
    case Unlink => s.(meet := m.(p2 := Done), markers := s.markers - {m.second})
    case _ => s.(meet := SecondIo(m, s.linked))
  }

  /** The Manager after its search: poll the two markers one `access` at a time, then remove the
      FIFOs and announce the exchange. */
  function StepManager(c: Config, s: State): State {
    match s.mpc
    case Check1 => if c.a !in s.markers then s.(mpc := Check2) else s
    case Check2 => s.(mpc := if c.b !in s.markers then Unlink1 else Check1)
    case Unlink1 => s.(mpc := Unlink2, linked := s.linked - {Path(c.a, c.b)})
    case Unlink2 => s.(mpc := Print, linked := s.linked - {Path(c.b, c.a)})
    case Print => s.(mpc := Finish)
    case _ => s
  }

  datatype Actor = Token | FirstTarget | SecondTarget | TheManager

  function Step(c: Config, s: State, x: Actor): State {
    match x
    case Token => StepToken(c, s)
    case FirstTarget => StepFirst(c, s)
    case SecondTarget => StepSecond(s)
    case TheManager => StepManager(c, s)
  }

  /** The state after a schedule; scheduling a blocked actor changes nothing. */
  function Run(c: Config, s: State, schedule: seq<Actor>): State
    decreases |schedule|
  {
    if schedule == [] then s else Run(c, Step(c, s, schedule[0]), schedule[1..])
  }

  predicate Finished(s: State) { s.mpc == Finish && s.meet.p1 == Done && s.meet.p2 == Done }
}
