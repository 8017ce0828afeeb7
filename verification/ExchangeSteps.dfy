module ExchangeSteps {
  import opened Trees
  import opened Text
  import opened Exchange
  import opened ExchangeInvariant

  lemma InitInv(c: Config)
    requires ValidConfig(c)
    ensures Inv(c, Init(c))
  {
    var q := Init(c).search;
    assert PendingIn(q.frames) == PreorderAll(c.root.kids) + PendingIn(q.frames[1..]);
    assert q.frames[1..] == [];
    assert q.log + Pending(q) == Preorder(c.root);
    assert q.log <= Preorder(c.root);
    assert q.log[..0] == [];
  }

  // ----- the rendezvous -------------------------------------------------------------------

  /** One FIFO system call of the first target takes its FIFO, and any other, along. */
  lemma FirstReadIo(pc: Pc, present: bool, tm: string, g: nat, to2: bool, x1: string, x2: string)
    requires (pc.OpenR? ==> present) && Reading(pc) && InStep(Progress1(pc), g) && IsMessage(x1)
    requires pc.WaitR? ==> pc.seen == 0
    ensures var f := Progress1(pc);
      var io := ReadStep(FifoAt(f, g, true, to2, x1, x2), present, pc, tm, OpenW);
      var f' := Progress1(io.pc);
      && InStep(f', g) && f' <= 4 && io.fifo == FifoAt(f', g, true, to2, x1, x2)
      && FifoAt(f, g, false, true, x1, x2) == FifoAt(f', g, false, true, x1, x2)
      && (io.pc.WaitR? ==> io.pc.seen == 0) && !io.pc.WaitW?
      && io.tm == if f < 3 <= f' then x1 else tm
  {
  }

  lemma FirstWriteIo(pc: Pc, present: bool, tm: string, g: nat, to1: bool, x1: string, x2: string)
    requires (pc.OpenW? ==> present) && Writing(pc) && InStep(Progress1(pc), g)
    requires pc.WaitW? ==> pc.seen == Bit(to1)
    ensures var f := Progress1(pc);
      var io := WriteStep(FifoAt(f, g, to1, true, x1, x2), present, pc, tm, x2, Store);
      var f' := Progress1(io.pc);
      && InStep(f', g) && 5 <= f' <= 8 && io.fifo == FifoAt(f', g, to1, true, x1, x2)
      && FifoAt(f, g, true, false, x1, x2) == FifoAt(f', g, true, false, x1, x2)
      && (io.pc.WaitW? ==> io.pc.seen == Bit(to1)) && !io.pc.WaitR?
  {
  }

  lemma SecondWriteIo(pc: Pc, present: bool, tm: string, f: nat, to2: bool, x1: string, x2: string)
    requires (pc.OpenW? ==> present) && Writing(pc) && InStep(f, Progress2(pc))
    requires pc.WaitW? ==> pc.seen == 0
    ensures var g := Progress2(pc);
      var io := WriteStep(FifoAt(f, g, true, to2, x1, x2), present, pc, tm, x1, OpenR);
      var g' := Progress2(io.pc);
      && InStep(f, g') && g' <= 4 && io.fifo == FifoAt(f, g', true, to2, x1, x2)
      && FifoAt(f, g, false, true, x1, x2) == FifoAt(f, g', false, true, x1, x2)
      && (io.pc.WaitW? ==> io.pc.seen == 0) && !io.pc.WaitR?
  {
  }

  lemma SecondReadIo(pc: Pc, present: bool, tm: string, f: nat, to1: bool, x1: string, x2: string)
    requires (pc.OpenR? ==> present) && Reading(pc) && InStep(f, Progress2(pc)) && IsMessage(x2)
    requires pc.WaitR? ==> pc.seen == Bit(to1)
    ensures var g := Progress2(pc);
      var io := ReadStep(FifoAt(f, g, to1, true, x1, x2), present, pc, tm, Store);
      var g' := Progress2(io.pc);
      && InStep(f, g') && 5 <= g' <= 8 && io.fifo == FifoAt(f, g', to1, true, x1, x2)
      && FifoAt(f, g, true, false, x1, x2) == FifoAt(f, g', true, false, x1, x2)
      && (io.pc.WaitR? ==> io.pc.seen == Bit(to1)) && !io.pc.WaitW?
      && io.tm == if g < 7 <= g' then x2 else tm
  {
  }

  // ----- one step of a party --------------------------------------------------------------

  lemma FirstReads(fifos: map<string, Fifo>, linked: set<string>, p1: Pc, tm1: string, p2: Pc, tm2: string,
                   to1: string, to2: string, x1: string, x2: string)
    requires TransferInv(fifos, p1, tm1, p2, tm2, to1, to2, x1, x2) && IsMessage(x1)
    requires Reading(p1) && (p1.OpenR? ==> to1 in linked)
    ensures var (io, fifos') := FifoCall(fifos, linked, p1, tm1, to1, to2, x2, OpenW, Store);
      Progress1(io.pc) < 9 && TransferInv(fifos', io.pc, io.tm, p2, tm2, to1, to2, x1, x2)
  {
    FirstReadIo(p1, to1 in linked, tm1, Progress2(p2), to1 == to2, x1, x2);
  }

  lemma FirstWrites(fifos: map<string, Fifo>, linked: set<string>, p1: Pc, tm1: string, p2: Pc, tm2: string,
                    to1: string, to2: string, x1: string, x2: string)
    requires TransferInv(fifos, p1, tm1, p2, tm2, to1, to2, x1, x2) && IsMessage(x1)
    requires Writing(p1) && (p1.OpenW? ==> to2 in linked)
    ensures var (io, fifos') := FifoCall(fifos, linked, p1, tm1, to1, to2, x2, OpenW, Store);
      Progress1(io.pc) < 9 && TransferInv(fifos', io.pc, io.tm, p2, tm2, to1, to2, x1, x2)
  {
    FirstWriteIo(p1, to2 in linked, tm1, Progress2(p2), to1 == to2, x1, x2);
  }

  lemma FirstTransfers(fifos: map<string, Fifo>, linked: set<string>, p1: Pc, tm1: string, p2: Pc, tm2: string,
                       to1: string, to2: string, x1: string, x2: string)
    requires TransferInv(fifos, p1, tm1, p2, tm2, to1, to2, x1, x2) && IsMessage(x1)
    requires Reading(p1) || Writing(p1)
    requires p1.OpenR? || p1.OpenW? ==> to1 in linked && to2 in linked
    ensures var (io, fifos') := FifoCall(fifos, linked, p1, tm1, to1, to2, x2, OpenW, Store);
      Progress1(io.pc) < 9 && TransferInv(fifos', io.pc, io.tm, p2, tm2, to1, to2, x1, x2)
  {
    if Reading(p1) {
      FirstReads(fifos, linked, p1, tm1, p2, tm2, to1, to2, x1, x2);
    } else {
      FirstWrites(fifos, linked, p1, tm1, p2, tm2, to1, to2, x1, x2);
    }
  }

  lemma SecondTransfers(fifos: map<string, Fifo>, linked: set<string>, p1: Pc, tm1: string, p2: Pc, tm2: string,
                        to1: string, to2: string, x1: string, x2: string)
    requires TransferInv(fifos, p1, tm1, p2, tm2, to1, to2, x1, x2) && IsMessage(x2)
    requires Reading(p2) || Writing(p2)
    requires p2.OpenR? || p2.OpenW? ==> to1 in linked && to2 in linked
    ensures var (io, fifos') := FifoCall(fifos, linked, p2, tm2, to2, to1, x1, Store, OpenR);
      Progress2(io.pc) < 9 && TransferInv(fifos', p1, tm1, io.pc, io.tm, to1, to2, x1, x2)
  {
    var f := Progress1(p1);
    if Reading(p2) {
      SecondReadIo(p2, to2 in linked, tm2, f, to1 == to2, x1, x2);
    } else {
      SecondWriteIo(p2, to1 in linked, tm2, f, to1 == to2, x1, x2);
    }
  }

  /** Storing and local steps leave the transfers where they are. */
  lemma OwnStep(fifos: map<string, Fifo>, p1: Pc, tm1: string, p2: Pc, tm2: string,
                to1: string, to2: string, x1: string, x2: string, p1': Pc, p2': Pc)
    requires TransferInv(fifos, p1, tm1, p2, tm2, to1, to2, x1, x2)
    requires Progress1(p1') == Progress1(p1) || (p1.Store? && Progress1(p1') == 9)
    requires Progress2(p2') == Progress2(p2) || (p2.Store? && Progress2(p2') == 9)
    requires (p1' == p1 || (!p1'.WaitR? && !p1'.WaitW?)) && (p2' == p2 || (!p2'.WaitR? && !p2'.WaitW?))
    ensures TransferInv(fifos, p1', tm1, p2', tm2, to1, to2, x1, x2)
  {
  }

  lemma FirstStores(c: Config, m: Meeting, p1: Pc)
    requires SecretsInv(c, m) && m.p1.Store? && Progress1(p1) == 9
    ensures SecretsInv(c, m.(secrets := m.secrets[m.first := c.secrets[m.second]], p1 := p1))
  {
  }

  lemma SecondStores(c: Config, m: Meeting)
    requires SecretsInv(c, m) && m.p2.Store?
    ensures SecretsInv(c, m.(secrets := m.secrets[m.second := c.secrets[m.first]], p2 := Unlink))
  {
  }

  lemma FirstIoKeeps(c: Config, m: Meeting, linked: set<string>)
    requires MeetingInv(c, m) && (Reading(m.p1) || Writing(m.p1))
    requires m.p1.OpenR? || m.p1.OpenW? ==> linked == Paths(c)
    ensures MeetingInv(c, FirstIo(m, linked))
  {
    MessageOk(c.secrets[m.second]);
    FirstTransfers(m.fifos, linked, m.p1, m.tm1, m.p2, m.tm2, Path(m.second, m.first), Path(m.first, m.second),
                   SecretBytes(c.secrets[m.second]), SecretBytes(c.secrets[m.first]));
  }

  lemma SecondIoKeeps(c: Config, m: Meeting, linked: set<string>)
    requires MeetingInv(c, m) && (Reading(m.p2) || Writing(m.p2))
    requires m.p2.OpenR? || m.p2.OpenW? ==> linked == Paths(c)
    ensures MeetingInv(c, SecondIo(m, linked))
  {
    MessageOk(c.secrets[m.first]);
    SecondTransfers(m.fifos, linked, m.p1, m.tm1, m.p2, m.tm2, Path(m.second, m.first), Path(m.first, m.second),
                    SecretBytes(c.secrets[m.second]), SecretBytes(c.secrets[m.first]));
  }

  lemma OwnStepKeeps(c: Config, m: Meeting, p1: Pc, p2: Pc)
    requires MeetingInv(c, m)
    requires Progress1(p1) == Progress1(m.p1) && Progress2(p2) == Progress2(m.p2)
    requires (p1 == m.p1 || (!p1.WaitR? && !p1.WaitW?)) && (p2 == m.p2 || (!p2.WaitR? && !p2.WaitW?))
    ensures MeetingInv(c, m.(p1 := p1, p2 := p2))
  {
    OwnStep(m.fifos, m.p1, m.tm1, m.p2, m.tm2, Path(m.second, m.first), Path(m.first, m.second),
            SecretBytes(c.secrets[m.second]), SecretBytes(c.secrets[m.first]), p1, p2);
  }

  lemma FirstStoreKeeps(c: Config, m: Meeting, p1: Pc)
    requires MeetingInv(c, m) && m.p1.Store? && Progress1(p1) == 9
    ensures MeetingInv(c, m.(secrets := m.secrets[m.first := StoredSecret(m.tm1)], p1 := p1))
  {
    MessageOk(c.secrets[m.second]);
    OwnStep(m.fifos, m.p1, m.tm1, m.p2, m.tm2, Path(m.second, m.first), Path(m.first, m.second),
            SecretBytes(c.secrets[m.second]), SecretBytes(c.secrets[m.first]), p1, m.p2);
    FirstStores(c, m, p1);
  }

  lemma SecondStoreKeeps(c: Config, m: Meeting)
    requires MeetingInv(c, m) && m.p2.Store?
    ensures MeetingInv(c, m.(secrets := m.secrets[m.second := StoredSecret(m.tm2)], p2 := Unlink))
  {
    MessageOk(c.secrets[m.first]);
    OwnStep(m.fifos, m.p1, m.tm1, m.p2, m.tm2, Path(m.second, m.first), Path(m.first, m.second),
            SecretBytes(c.secrets[m.second]), SecretBytes(c.secrets[m.first]), m.p1, Unlink);
    SecondStores(c, m);
  }

  lemma FirstTurn(c: Config, s: State)
    ensures var m, m' := s.meet, StepFirst(c, s).meet;
      if Reading(m.p1) || Writing(m.p1) then m' == FirstIo(m, s.linked)
      else if m.p1.Store? then
        m' == m.(secrets := m.secrets[m.first := StoredSecret(m.tm1)], p1 := m'.p1) && Progress1(m'.p1) == 9
      else m' == m.(p1 := m'.p1)
  {
  }

  lemma FirstKeepsMeeting(c: Config, s: State)
    requires MeetingInv(c, s.meet) && (s.meet.p1.OpenR? || s.meet.p1.OpenW? ==> s.linked == Paths(c))
    ensures MeetingInv(c, StepFirst(c, s).meet)
  {
    var m, m' := s.meet, StepFirst(c, s).meet;
    FirstTurn(c, s);
    if Reading(m.p1) || Writing(m.p1) {
      FirstIoKeeps(c, m, s.linked);
    } else if m.p1.Store? {
      FirstStoreKeeps(c, m, m'.p1);
    } else {
      OwnStepKeeps(c, m, m'.p1, m.p2);
    }
  }

  lemma SecondKeepsMeeting(c: Config, s: State)
    requires MeetingInv(c, s.meet) && (s.meet.p2.OpenR? || s.meet.p2.OpenW? ==> s.linked == Paths(c))
    ensures MeetingInv(c, StepSecond(s).meet)
  {
    var m, m' := s.meet, StepSecond(s).meet;
    if Reading(m.p2) || Writing(m.p2) {
      SecondIoKeeps(c, m, s.linked);
    } else if m.p2.Store? {
      SecondStoreKeeps(c, m);
    } else {
      OwnStepKeeps(c, m, m.p1, m'.p2);
    }
  }

  /** The second target removes its marker only when the first has long left its polling loop. */
  ghost predicate UnlinksLate(m: Meeting) { m.p2.Unlink? ==> !Spinning(m.p1) }

  lemma MeetingUnlinksLate(c: Config, m: Meeting)
    requires MeetingInv(c, m)
    ensures UnlinksLate(m)
  {
    assert InStep(Progress1(m.p1), Progress2(m.p2));
  }

  lemma InvUnlinksLate(c: Config, s: State)
    requires Inv(c, s)
    ensures UnlinksLate(s.meet)
  {
    if Found(c, s.search.log) == 2 {
      MeetingUnlinksLate(c, s.meet);
    }
  }

  lemma SecondKeepsApart(c: Config, s: State)
    requires ApartInv(c, s.meet) && s.meet.p2.Idle?
    ensures ApartInv(c, StepSecond(s).meet)
  {
  }

  // ----- the second target keeps the rest -------------------------------------------------

  /** What the others can see of a step of the second target. */
  ghost predicate SecondEffect(s: State, s': State) {
    && s' == s.(meet := s'.meet, markers := s'.markers)
    && s'.meet.first == s.meet.first && s'.meet.p1 == s.meet.p1 && s'.meet.second == s.meet.second
    && (s'.meet.p2.Idle? <==> s.meet.p2.Idle?)
    && (s'.meet.p2.Done? <==> s.meet.p2.Unlink? || s.meet.p2.Done?)
    && s'.markers == if s.meet.p2.Unlink? then s.markers - {s.meet.second} else s.markers
  }

  lemma SecondHasEffect(s: State)
    ensures SecondEffect(s, StepSecond(s))
  {
  }

  lemma SecondKeepsMode(c: Config, s: State, s': State)
    requires ModeInv(c, s) && SecondEffect(s, s')
    ensures ModeInv(c, s')
  {
  }

  lemma SecondKeepsMarkers(c: Config, s: State, s': State)
    requires MarkerInv(c, s) && NamesInv(c, s.search.log, s.meet) && ModeInv(c, s) && SecondEffect(s, s')
    requires UnlinksLate(s.meet)
    ensures MarkerInv(c, s') && NamesInv(c, s'.search.log, s'.meet)
  {
  }

  // ----- the first target keeps the rest --------------------------------------------------

  /** What the others can see of a step of the first target. */
  ghost predicate FirstEffect(c: Config, s: State, s': State) {
    var p, p' := s.meet.p1, s'.meet.p1;
    var ends := p.Store? && s.mode.Manager?;
    && s'.mode == s.mode && s'.linked == s.linked
    && s'.search == (if p.Report? && s.search.frames != [] then Answer(s.search) else s.search)
    && s'.mpc == (if ends then Unlink1 else s.mpc)
    && s'.markers == (if p.Unlink? then s.markers - {s.meet.first} else s.markers)
    && s'.meet.first == s.meet.first && s'.meet.second == s.meet.second && s'.meet.p2 == s.meet.p2
    && (p'.Idle? <==> p.Idle?) && (Spinning(p') ==> Spinning(p))
    && (p'.Spin2? ==> c.a in s.markers)
    && (p'.Report? <==> (p.Store? && s.mode.Direct?) || (p.Report? && s.search.frames == []))
    && (p'.Unlink? <==> (p.Store? && !s.mode.Direct? && !s.mode.Manager?)
                        || (p.Report? && s.search.frames != []))
    && (p'.Done? <==> p.Unlink? || p.Done? || ends)
  }

  /** A FIFO call leads to another FIFO call, to the store or to a crash. */
  lemma FirstCallEffect(m: Meeting, linked: set<string>)
    requires Reading(m.p1) || Writing(m.p1)
    ensures var m' := FirstIo(m, linked);
      && m' == m.(p1 := m'.p1, tm1 := m'.tm1, fifos := m'.fifos)
      && (Reading(m'.p1) || Writing(m'.p1) || m'.p1.Store? || m'.p1.Crashed?)
  {
  }

  lemma FirstHasEffect(c: Config, s: State)
    ensures FirstEffect(c, s, StepFirst(c, s))
  {
    if Reading(s.meet.p1) || Writing(s.meet.p1) {
      FirstCallEffect(s.meet, s.linked);
      assert StepFirst(c, s) == s.(meet := FirstIo(s.meet, s.linked));
    }
  }

  lemma FirstKeepsSearch(c: Config, s: State, s': State)
    requires Inv(c, s) && FirstEffect(c, s, s')
    ensures LogInv(c, s'.search) && TokenInv(c, s'.search, s'.mpc.Searching?)
  {
    if s.meet.p1.Report? {
      assert Found(c, s.search.log) == 2;
    }
  }

  lemma FirstKeepsMode(c: Config, s: State, s': State)
    requires ModeInv(c, s) && FirstEffect(c, s, s')
    ensures ModeInv(c, s')
  {
  }

  lemma FirstKeepsMarkers(c: Config, s: State, s': State)
    requires MarkerInv(c, s) && NamesInv(c, s.search.log, s.meet) && ModeInv(c, s) && FirstEffect(c, s, s')
    ensures MarkerInv(c, s') && NamesInv(c, s'.search.log, s'.meet)
  {
  }

  // ----- the Manager ----------------------------------------------------------------------

  lemma ManagerHasEffect(c: Config, s: State)
    ensures var s' := StepManager(c, s);
      && s' == s.(mpc := s'.mpc, linked := s'.linked)
      && (s'.mpc.Searching? <==> s.mpc.Searching?)
  {
  }

  lemma ManagerKeepsMode(c: Config, s: State)
    requires ModeInv(c, s)
    ensures ModeInv(c, StepManager(c, s))
  {
  }

  lemma ManagerKeepsMarkers(c: Config, s: State)
    requires MarkerInv(c, s) && NamesInv(c, s.search.log, s.meet)
    ensures MarkerInv(c, StepManager(c, s))
  {
  }

  // ----- whole steps ----------------------------------------------------------------------

  lemma FirstKeepsInv(c: Config, s: State)
    requires Inv(c, s)
    ensures Inv(c, StepFirst(c, s))
  {
    var s' := StepFirst(c, s);
    FirstHasEffect(c, s);
    FirstKeepsSearch(c, s, s');
    FirstKeepsMode(c, s, s');
    FirstKeepsMarkers(c, s, s');
    if Found(c, s.search.log) == 2 {
      FirstKeepsMeeting(c, s);
    } else {
      assert !(c.a in s.markers && c.b in s.markers);
    }
  }

  lemma SecondKeepsInv(c: Config, s: State)
    requires Inv(c, s)
    ensures Inv(c, StepSecond(s))
  {
    var s' := StepSecond(s);
    SecondHasEffect(s);
    InvUnlinksLate(c, s);
    SecondKeepsMode(c, s, s');
    SecondKeepsMarkers(c, s, s');
    if Found(c, s.search.log) == 2 {
      SecondKeepsMeeting(c, s);
    } else {
      SecondKeepsApart(c, s);
    }
  }

  lemma ManagerKeepsInv(c: Config, s: State)
    requires Inv(c, s)
    ensures Inv(c, StepManager(c, s))
  {
    ManagerHasEffect(c, s);
    ManagerKeepsMode(c, s);
    ManagerKeepsMarkers(c, s);
  }
}
