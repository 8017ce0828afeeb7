/** The bulletin board's ten slots: which slot a `post` is granted, and what the board shows after
    any number of posts made one after the other.
    Models the `post` and "[SP]" branches of `main` in csieBulletinBoard/server.c. */
module Board {
  import opened Text
  import opened PostMessage

  const RECORD_NUM := 10
  const MAX_MESSAGE_LEN := 2000

  function Wrap(i: nat): nat { if i < RECORD_NUM then i else i - RECORD_NUM }

  /** The slot the scan reaches in its step `k`. */
  function Slot(start: nat, k: nat): (s: nat)
    requires start < RECORD_NUM && k < RECORD_NUM
    ensures s < RECORD_NUM
  {
    Wrap(start + k)
  }

  /** The first of the `k` first steps that comes to a free slot. */
  function Scan(free: seq<bool>, start: nat, k: nat): (step: Option<nat>)
    requires |free| == RECORD_NUM && start < RECORD_NUM && k <= RECORD_NUM
    ensures step.Some? ==> step.value < k
  {
    if k == 0 then None
    else if Scan(free, start, k - 1).Some? then Scan(free, start, k - 1)
    else if free[Slot(start, k - 1)] then Some(k - 1) else None
  }

  /** How many of these steps come to a taken slot. */
  function Taken(free: seq<bool>, start: nat, k: nat): nat
    requires |free| == RECORD_NUM && start < RECORD_NUM && k <= RECORD_NUM
  {
    if k == 0 then 0 else Taken(free, start, k - 1) + (if free[Slot(start, k - 1)] then 0 else 1)
  }

  /** The scan comes by every slot, and by none twice. */
  lemma EverySlotOnce(start: nat, s: nat) returns (k: nat)
    requires start < RECORD_NUM && s < RECORD_NUM
    ensures k < RECORD_NUM && Slot(start, k) == s
    ensures forall j: nat | j < RECORD_NUM && j != k :: Slot(start, j) != s
  {
    k := if s >= start then s - start else s + RECORD_NUM - start;
  }

  lemma {:induction false} ScanFirst(free: seq<bool>, start: nat, k: nat)
    requires |free| == RECORD_NUM && start < RECORD_NUM && k <= RECORD_NUM
    ensures match Scan(free, start, k)
      case Some(i) => free[Slot(start, i)] && forall j: nat | j < i :: !free[Slot(start, j)]
      case None => forall j: nat | j < k :: !free[Slot(start, j)]
    ensures Taken(free, start, k) <= k
    ensures Taken(free, start, k) == k <==> Scan(free, start, k).None?
    decreases k
  {
    if k == 0 {
    } else {
      ScanFirst(free, start, k - 1);
    }
  }

  /** A slot is granted if and only if one is free. */
  lemma GrantedIffFree(free: seq<bool>, start: nat)
    requires |free| == RECORD_NUM && start < RECORD_NUM
    ensures Scan(free, start, RECORD_NUM).Some? <==> true in free
  {
    ScanFirst(free, start, RECORD_NUM);
    forall s: nat | s < RECORD_NUM && free[s] ensures Scan(free, start, RECORD_NUM).Some? {
      var k := EverySlotOnce(start, s);
    }
  }

  function Free(locks: seq<bool>, foreign: seq<bool>): seq<bool>
    requires |locks| == |foreign|
  {
    seq(|locks|, k requires 0 <= k < |locks| => !locks[k] && !foreign[k])
  }

  // ----- posts and messages, on values ----------------------------------------------------

  /** The slots this server has granted and not got back, the slot granted last, and the slot
      granted to each connection. */
  datatype Slots = Slots(locks: seq<bool>, last: int, slotOf: map<int, nat>)

  predicate ValidSlots(b: Slots) {
    |b.locks| == RECORD_NUM && -1 <= b.last < RECORD_NUM && forall c | c in b.slotOf :: b.slotOf[c] < RECORD_NUM
  }

  /** The slot a `post` is granted. `foreign`: another server holds the record lock. */
  function Granted(b: Slots, foreign: seq<bool>): Option<nat>
    requires ValidSlots(b) && |foreign| == RECORD_NUM
  {
    match Scan(Free(b.locks, foreign), Wrap(b.last + 1), RECORD_NUM)
    case None => None
    case Some(i) => Some(Slot(Wrap(b.last + 1), i))
  }

  /** After a `post`. A refusal forgets the slot granted last if that is the last one of the file. */
  function AfterPost(b: Slots, conn: int, foreign: seq<bool>): (b': Slots)
    requires ValidSlots(b) && |foreign| == RECORD_NUM
    ensures ValidSlots(b')
  {
    match Granted(b, foreign)
    case None => b.(last := Wrap(b.last + 1) - 1)
    case Some(s) => Slots(b.locks[s := true], s, b.slotOf[conn := s])
  }

  /** After a message: the slot granted last is released. With none remembered the source writes
      outside its array, to none of these slots. */
  function AfterMessage(b: Slots): (b': Slots)
    requires ValidSlots(b)
    ensures ValidSlots(b')
  {
    if b.last < 0 then b else b.(locks := b.locks[b.last := false])
  }

  lemma GrantedWasFree(b: Slots, foreign: seq<bool>)
    requires ValidSlots(b) && |foreign| == RECORD_NUM && Granted(b, foreign).Some?
    ensures Granted(b, foreign).value < RECORD_NUM && !b.locks[Granted(b, foreign).value]
  {
    ScanFirst(Free(b.locks, foreign), Wrap(b.last + 1), RECORD_NUM);
  }

  /** Going round from slot `first`, slot `j` comes before slot `s`. */
  predicate ComesBefore(first: nat, j: nat, s: nat) {
    if s >= first then first <= j < s else j >= first || j < s
  }

  /** A slot is free if neither this server nor another one holds it; the slot granted is the first free
      one going round from the slot after the one granted last. */
  lemma GrantsNextFree(b: Slots, foreign: seq<bool>)
    requires ValidSlots(b) && |foreign| == RECORD_NUM
    ensures var first := if b.last + 1 == RECORD_NUM then 0 else b.last + 1;
      match Granted(b, foreign)
      case None => forall j: nat | j < RECORD_NUM :: b.locks[j] || foreign[j]
      case Some(s) =>
        && s < RECORD_NUM && !b.locks[s] && !foreign[s]
        && forall j: nat | j < RECORD_NUM && ComesBefore(first, j, s) :: b.locks[j] || foreign[j]
  {
    var free, start := Free(b.locks, foreign), Wrap(b.last + 1);
    ScanFirst(free, start, RECORD_NUM);
    forall j: nat | j < RECORD_NUM && (Granted(b, foreign).Some? ==> ComesBefore(start, j, Granted(b, foreign).value))
      ensures b.locks[j] || foreign[j]
    {
      var k := EverySlotOnce(start, j);
      assert free[j] == (!b.locks[j] && !foreign[j]);
    }
  }

  // ----- whose slot a message releases ----------------------------------------------------

  datatype Event = Ask(conn: int, foreign: seq<bool>) | Message(conn: int)

  /** `pending`: clients that were granted a slot and have not sent their message. `disturbed`: those
      since whose grant another post has been granted or, if their slot is the last one of the file,
      another post has been refused. */
  datatype Watch = Watch(slots: Slots, pending: set<int>, disturbed: set<int>)

  /** What clients do: ask, and after a grant send one message. */
  predicate Allowed(w: Watch, e: Event) {
    match e
    case Ask(conn, foreign) => conn !in w.pending && |foreign| == RECORD_NUM
    case Message(conn) => conn in w.pending
  }

  function Next(w: Watch, e: Event): Watch
    requires ValidSlots(w.slots) && Allowed(w, e)
  {
    match e
    case Ask(conn, foreign) =>
      var slots' := AfterPost(w.slots, conn, foreign);
      if Granted(w.slots, foreign).Some? then Watch(slots', w.pending + {conn}, w.pending)
      else Watch(slots', w.pending, w.disturbed + OnLastSlot(w))
    case Message(conn) => Watch(AfterMessage(w.slots), w.pending - {conn}, w.disturbed - {conn})
  }

  function OnLastSlot(w: Watch): set<int> {
    set p | p in w.pending && p in w.slots.slotOf && w.slots.slotOf[p] == RECORD_NUM - 1
  }

  ghost predicate Protocol(w: Watch, history: seq<Event>)
    requires ValidSlots(w.slots)
    decreases |history|
  {
    history != [] ==> Allowed(w, history[0]) && Protocol(Next(w, history[0]), history[1..])
  }

  /** The message releases its sender's slot and no other. */
  predicate ReleasesOwn(w: Watch, conn: int)
    requires ValidSlots(w.slots)
  {
    conn in w.slots.slotOf && AfterMessage(w.slots).locks == w.slots.locks[w.slots.slotOf[conn] := false]
  }

  ghost predicate AllReleaseOwn(w: Watch, history: seq<Event>)
    requires ValidSlots(w.slots) && Protocol(w, history)
    decreases |history|
  {
    history != [] ==>
      && (history[0].Message? ==> ReleasesOwn(w, history[0].conn))
      && AllReleaseOwn(Next(w, history[0]), history[1..])
  }

  ghost predicate AllUndisturbed(w: Watch, history: seq<Event>)
    requires ValidSlots(w.slots) && Protocol(w, history)
    decreases |history|
  {
    history != [] ==>
      && (history[0].Message? ==> history[0].conn !in w.disturbed)
      && AllUndisturbed(Next(w, history[0]), history[1..])
  }

  /** As long as every message has released its own slot: pending clients hold different locked
      slots, and the undisturbed one is the one whose slot was granted last. */
  ghost predicate InOrder(w: Watch) {
    && ValidSlots(w.slots) && w.disturbed <= w.pending
    && (forall p | p in w.pending :: p in w.slots.slotOf && w.slots.locks[w.slots.slotOf[p]])
    && (forall p, r | p in w.pending && r in w.pending && p != r :: w.slots.slotOf[p] != w.slots.slotOf[r])
    && forall p | p in w.pending :: p in w.disturbed <==> w.slots.last != w.slots.slotOf[p]
  }

  lemma AskKeepsOrder(w: Watch, conn: int, foreign: seq<bool>)
    requires InOrder(w) && Allowed(w, Ask(conn, foreign))
    ensures InOrder(Next(w, Ask(conn, foreign)))
  {
    if Granted(w.slots, foreign).Some? {
      GrantedWasFree(w.slots, foreign);
    }
  }

  lemma MessageKeepsOrder(w: Watch, conn: int)
    requires InOrder(w) && conn in w.pending
    ensures ReleasesOwn(w, conn) <==> conn !in w.disturbed
    ensures ReleasesOwn(w, conn) ==> InOrder(Next(w, Message(conn)))
  {
    var locks, mine := w.slots.locks, w.slots.slotOf[conn];
    assert locks[mine] && !locks[mine := false][mine];
    if w.slots.last >= 0 && w.slots.last != mine {
      assert locks[w.slots.last := false][mine];
    }
  }

  /** In a history of posts and messages that follows the protocol, every message releases the slot
      granted to its sender if and only if none of them is disturbed: between the grant and the
      message no other post is granted and, if the slot is the last one of the file, none refused. */
  lemma {:induction false} MessagesReleaseOwnIff(w: Watch, history: seq<Event>)
    requires InOrder(w) && Protocol(w, history)
    ensures AllReleaseOwn(w, history) <==> AllUndisturbed(w, history)
    decreases |history|
  {
    if history == [] {
    } else {
      match history[0]
      case Ask(conn, foreign) =>
        AskKeepsOrder(w, conn, foreign);
        MessagesReleaseOwnIff(Next(w, history[0]), history[1..]);
      case Message(conn) =>
        MessageKeepsOrder(w, conn);
        if ReleasesOwn(w, conn) {
          MessagesReleaseOwnIff(Next(w, history[0]), history[1..]);
        }
    }
  }

  /** The same from a server that has granted nothing yet. */
  lemma FromTheStart(last: int, history: seq<Event>)
    requires -1 <= last < RECORD_NUM
    requires Protocol(Watch(Slots(seq(RECORD_NUM, _ => false), last, map[]), {}, {}), history)
    ensures var w := Watch(Slots(seq(RECORD_NUM, _ => false), last, map[]), {}, {});
      AllReleaseOwn(w, history) <==> AllUndisturbed(w, history)
  {
    MessagesReleaseOwnIff(Watch(Slots(seq(RECORD_NUM, _ => false), last, map[]), {}, {}), history);
  }

  /** Two posts under way: the first message releases the other client's slot. */
  lemma OverlapMisses()
    ensures var w := Watch(Slots(seq(RECORD_NUM, _ => false), -1, map[]), {}, {});
      var free := seq(RECORD_NUM, _ => false);
      var history := [Ask(1, free), Ask(2, free), Message(1)];
      Protocol(w, history) && !AllReleaseOwn(w, history)
  {
    var w := Watch(Slots(seq(RECORD_NUM, _ => false), -1, map[]), {}, {});
    var free := seq(RECORD_NUM, _ => false);
    var w1 := Next(w, Ask(1, free));
    ScanAtOnce(Free(w.slots.locks, free), 0, RECORD_NUM);
    ScanAtOnce(Free(w1.slots.locks, free), 1, RECORD_NUM);
    Three(w, Ask(1, free), Ask(2, free), 1);
  }

  /** A refused post is enough if the slot is the last one of the file. */
  lemma RefusalMisses()
    ensures var w := Watch(Slots(seq(RECORD_NUM, _ => false), RECORD_NUM - 2, map[]), {}, {});
      var free, foreign := seq(RECORD_NUM, _ => false), seq(RECORD_NUM, _ => true);
      Protocol(w, [Ask(1, free), Ask(2, foreign), Message(1)])
      && !AllReleaseOwn(w, [Ask(1, free), Ask(2, foreign), Message(1)])
  {
    var w := Watch(Slots(seq(RECORD_NUM, _ => false), RECORD_NUM - 2, map[]), {}, {});
    var free, foreign := seq(RECORD_NUM, _ => false), seq(RECORD_NUM, _ => true);
    var w1 := Next(w, Ask(1, free));
    ScanAtOnce(Free(w.slots.locks, free), RECORD_NUM - 1, RECORD_NUM);
    GrantedIffFree(Free(w1.slots.locks, foreign), 0);
    Three(w, Ask(1, free), Ask(2, foreign), 1);
  }

  /** A history of two posts and the first one's message. */
  lemma Three(w: Watch, e1: Event, e2: Event, conn: int)
    requires InOrder(w) && Allowed(w, e1) && Allowed(Next(w, e1), e2) && e1.Ask? && e2.Ask?
    requires conn in Next(Next(w, e1), e2).disturbed && conn in Next(Next(w, e1), e2).pending
    ensures Protocol(w, [e1, e2, Message(conn)]) && !AllReleaseOwn(w, [e1, e2, Message(conn)])
  {
    var h, h1, h2 := [e1, e2, Message(conn)], [e2, Message(conn)], [Message(conn)];
    var w1 := Next(w, e1);
    var w2 := Next(w1, e2);
    assert h[0] == e1 && h[1..] == h1 && h1[0] == e2 && h1[1..] == h2 && h2[0] == Message(conn) && h2[1..] == [];
    assert Protocol(Next(w2, h2[0]), h2[1..]);
    assert Protocol(w2, h2) && !AllUndisturbed(w2, h2);
    assert Protocol(w1, h1) && !AllUndisturbed(w1, h1);
    assert Protocol(w, h) && !AllUndisturbed(w, h);
    MessagesReleaseOwnIff(w, h);
  }

  // ----- the server -----------------------------------------------------------------------

  /** The slots among the first `k` of the scan whose record lock can be had. */
  function Lockable(foreign: seq<bool>, start: nat, k: nat): set<nat>
    requires |foreign| == RECORD_NUM && start < RECORD_NUM && k <= RECORD_NUM
  {
    if k == 0 then {}
    else Lockable(foreign, start, k - 1) + if foreign[Slot(start, k - 1)] then {} else {Slot(start, k - 1)}
  }

  lemma {:induction false} LockableMeans(foreign: seq<bool>, start: nat, k: nat, s: nat)
    requires |foreign| == RECORD_NUM && start < RECORD_NUM && k <= RECORD_NUM
    ensures s in Lockable(foreign, start, k) ==> s < RECORD_NUM && !foreign[s]
    ensures forall j: nat | j < k && Slot(start, j) == s && !foreign[s] :: s in Lockable(foreign, start, k)
    decreases k
  {
    if k == 0 {
    } else {
      LockableMeans(foreign, start, k - 1, s);
    }
  }

  /** The scan takes every record lock that no other server holds. */
  lemma LockableAll(foreign: seq<bool>, start: nat)
    requires |foreign| == RECORD_NUM && start < RECORD_NUM
    ensures Lockable(foreign, start, RECORD_NUM) == set s: nat | s < RECORD_NUM && !foreign[s]
  {
    forall s: nat ensures s in Lockable(foreign, start, RECORD_NUM) <==> s < RECORD_NUM && !foreign[s] {
      LockableMeans(foreign, start, RECORD_NUM, s);
      if s < RECORD_NUM {
        var k := EverySlotOnce(start, s);
      }
    }
  }

  /** `receiveM`: the message in a zeroed buffer. */
  method Receive(msg: string) returns (command: array<char>)
    requires |msg| < MAX_MESSAGE_LEN && NUL !in msg
    ensures fresh(command) && PostMessage.Holds(command[..], |msg|) && command[..|msg|] == msg
  {
    command := new char[MAX_MESSAGE_LEN](i => if 0 <= i < |msg| then msg[i] else NUL);
  }

  /** State of the scan after `k` slots: `b` and `held` at its beginning, `b'` and `held'` now. */
  ghost predicate Scanned(b: Slots, held: set<nat>, b': Slots, held': set<nat>, foreign: seq<bool>, conn: int,
                          k: nat, unlkc: int, interlk: int)
    requires ValidSlots(b) && |foreign| == RECORD_NUM && b.last < RECORD_NUM - 1 && k <= RECORD_NUM
  {
    var free := Free(b.locks, foreign);
    && unlkc == RECORD_NUM - Taken(free, b.last + 1, k)
    && held' == held + Lockable(foreign, b.last + 1, k)
    && match Scan(free, b.last + 1, k)
       case None => interlk == 0 && b' == b
       case Some(i) =>
         var s := Slot(b.last + 1, i);
         interlk == 1 && b' == Slots(b.locks[s := true], s, b.slotOf[conn := s])
  }

  class Server {
    const mylock: array<bool>     // slots this server has granted and not got back
    const file: array<string>     // the record file
    var held: set<nat>            // record locks this server has in the file
    var last: int                 // the slot granted last
    var slotOf: map<int, nat>     // LAST: the slot granted to each connection
    var str1: string
    var str2: string

    ghost predicate Valid()
      reads this, mylock, file
    {
      && mylock.Length == RECORD_NUM && file.Length == RECORD_NUM && ValidSlots(Value())
      && forall k | 0 <= k < RECORD_NUM :: |file[k]| == FROM_LEN + CONTENT_LEN
    }

    ghost function Value(): Slots
      reads this, mylock
    {
      Slots(mylock[..], last, slotOf)
    }

    /** One slot of the scan: the record lock is taken if no other server has it, and kept. */
    method Visit(m: nat, conn: int, foreign: bool, unlkc0: int, interlk0: int) returns (unlkc: int, interlk: int)
      requires mylock.Length == RECORD_NUM && m < RECORD_NUM
      modifies this`held, this`last, this`slotOf, mylock
      ensures unlkc == unlkc0 - (if old(mylock[m]) || foreign then 1 else 0)
      ensures held == old(held) + if foreign then {} else {m}
      ensures if !old(mylock[m]) && !foreign && interlk0 == 0
        then interlk == 1 && Value() == Slots(old(mylock[..])[m := true], m, old(slotOf)[conn := m])
        else interlk == interlk0 && Value() == old(Value())
    {
      unlkc, interlk := unlkc0, interlk0;
      if foreign {
        unlkc := unlkc - 1;
      } else {
        held := held + {m};
        if !mylock[m] {
          if interlk == 0 {
            interlk := interlk + 1;
            last := m;
            slotOf := slotOf[conn := last];
            mylock[last] := true;
          }
        } else {
          unlkc := unlkc - 1;
        }
      }
    }

    /** One step of either loop. */
    method ScanStep(ghost b: Slots, ghost held0: set<nat>, foreign: seq<bool>, conn: int,
                    ghost k: nat, m: nat, unlkc0: int, interlk0: int) returns (unlkc: int, interlk: int)
      requires mylock.Length == |foreign| == RECORD_NUM && ValidSlots(b) && b.last < RECORD_NUM - 1 && k < RECORD_NUM
      requires Scanned(b, held0, Value(), held, foreign, conn, k, unlkc0, interlk0) && m == Slot(b.last + 1, k)
      modifies this`held, this`last, this`slotOf, mylock
      ensures Scanned(b, held0, Value(), held, foreign, conn, k + 1, unlkc, interlk)
    {
      ghost var n := EverySlotOnce(b.last + 1, m);
      assert mylock[..][m] == b.locks[m];
      unlkc, interlk := Visit(m, conn, foreign[m], unlkc0, interlk0);
    }

    /** One of the two loops, from slot `from` up to slot `to`; `k` slots come before it. */
    method ScanRange(ghost b: Slots, ghost held0: set<nat>, foreign: seq<bool>, conn: int,
                     from: nat, to: nat, ghost k: nat, unlkc0: int, interlk0: int) returns (unlkc: int, interlk: int)
      requires mylock.Length == |foreign| == RECORD_NUM && ValidSlots(b) && b.last < RECORD_NUM - 1
      requires from <= to <= RECORD_NUM && k + to - from <= RECORD_NUM
      requires b.last + 1 + k == from || b.last + 1 + k == from + RECORD_NUM
      requires Scanned(b, held0, Value(), held, foreign, conn, k, unlkc0, interlk0)
      modifies this`held, this`last, this`slotOf, mylock
      ensures Scanned(b, held0, Value(), held, foreign, conn, k + to - from, unlkc, interlk)
    {
      unlkc, interlk := unlkc0, interlk0;
      var m := from;
      ghost var j := k;
      while m < to
        invariant from <= m <= to && j == k + m - from
        invariant Scanned(b, held0, Value(), held, foreign, conn, j, unlkc, interlk)
      {
        unlkc, interlk := ScanStep(b, held0, foreign, conn, j, m, unlkc, interlk);
        m, j := m + 1, j + 1;
      }
    }

    /** The slots after `oldlast`, then those up to it. */
    method ScanSlots(conn: int, foreign: seq<bool>, oldlast: int) returns (unlkc: int, ghost interlk': int)
      requires mylock.Length == |foreign| == RECORD_NUM && ValidSlots(Value()) && oldlast == last < RECORD_NUM - 1
      modifies this`held, this`last, this`slotOf, mylock
      ensures Scanned(old(Value()), old(held), Value(), held, foreign, conn, RECORD_NUM, unlkc, interlk')
    {
      ghost var b, held0 := Value(), held;
      var interlk := 0;
      unlkc := RECORD_NUM;
      unlkc, interlk := ScanRange(b, held0, foreign, conn, oldlast + 1, RECORD_NUM, 0, unlkc, interlk);
      if oldlast + 1 > 0 {
        unlkc, interlk :=
          ScanRange(b, held0, foreign, conn, 0, oldlast + 1, RECORD_NUM - (oldlast + 1), unlkc, interlk);
      }
      interlk' := interlk;
    }

    method Grant(conn: int, foreign: seq<bool>) returns (reply: string)
      requires Valid() && |foreign| == RECORD_NUM && last < RECORD_NUM - 1
      modifies this`held, this`last, this`slotOf, mylock
      ensures Valid() && Value() == AfterPost(old(Value()), conn, foreign)
      ensures reply == if Granted(old(Value()), foreign).Some? then "1" else "0"
      ensures held == old(held) + set s: nat | s < RECORD_NUM && !foreign[s]
    {
      ScanFirst(Free(mylock[..], foreign), last + 1, RECORD_NUM);
      LockableAll(foreign, last + 1);
      var unlkc, _ := ScanSlots(conn, foreign, last);
      reply := if unlkc == 0 then "0" else "1";
    }

    /** `post`: grant the first free slot after the one granted last, going round. */
    method HandlePost(conn: int, foreign: seq<bool>) returns (reply: string)
      requires Valid() && |foreign| == RECORD_NUM
      modifies this`held, this`last, this`slotOf, mylock
      ensures Valid() && Value() == AfterPost(old(Value()), conn, foreign)
      ensures reply == if Granted(old(Value()), foreign).Some? then "1" else "0"
      ensures held == old(held) + set s: nat | s < RECORD_NUM && !foreign[s]
      ensures var first := if old(last) + 1 == RECORD_NUM then 0 else old(last) + 1;
        if reply == "1" then
          && 0 <= last < RECORD_NUM && !old(mylock[..])[last] && !foreign[last]
          && (forall j: nat | j < RECORD_NUM && ComesBefore(first, j, last) :: old(mylock[..])[j] || foreign[j])
          && mylock[..] == old(mylock[..])[last := true] && slotOf == old(slotOf)[conn := last]
        else
          && reply == "0" && (forall j: nat | j < RECORD_NUM :: old(mylock[..])[j] || foreign[j])
          && mylock[..] == old(mylock[..]) && slotOf == old(slotOf)
    {
      GrantsNextFree(Value(), foreign);
      if last + 1 == RECORD_NUM {
        last := -1;
      }
      reply := Grant(conn, foreign);
    }

    /** "[SP]": the message goes into the slot granted to the connection, and its record lock is given
        back; the slot granted last is released. `record` is whatever the stack record held. */
    method HandleMessage(conn: int, command: array<char>, ghost n: nat, record: string)
      requires Valid() && conn in slotOf && 0 <= last && |record| == FROM_LEN + CONTENT_LEN
      requires PostMessage.Holds(command[..], n)
      requires var p := Parsed(command[..n], str1, str2); |p.from| < |record| && |p.content| < CONTENT_LEN
      modifies this`held, this`str1, this`str2, file, mylock, command
      ensures Valid() && Value() == AfterMessage(old(Value()))
      ensures Post(str1, str2) == Parsed(old(command[..n]), old(str1), old(str2))
      ensures file[..] == old(file[..])[slotOf[conn] := Written(record, Post(str1, str2))]
      ensures held == old(held) - {slotOf[conn]}
      ensures old(mylock[slotOf[conn]]) ==>
        (mylock[..] == old(mylock[..])[slotOf[conn] := false] <==> last == slotOf[conn])
    {
      ghost var n' := RemoveMarks(command, n);
      var len := StrLen(command, n');
      str1, str2 := CutFields(command[..len], str1, str2);
      file[slotOf[conn]] := Written(record, Post(str1, str2));
      held := held - {slotOf[conn]};
      ReleasedIff(mylock[..], last, slotOf[conn]);
      mylock[last] := false;
    }

    // ----- one post after the other ---------------------------------------------------------

    /** What a pull shows slot by slot. */
    ghost function Shown(): seq<Post>
      requires Valid()
      reads this, mylock, file
    {
      seq(RECORD_NUM, k requires 0 <= k < RECORD_NUM reads this, file, mylock requires Valid() => ReadBack(file[k]))
    }

    ghost predicate Unlocked()
      reads mylock
    {
      forall k | 0 <= k < mylock.Length :: !mylock[k]
    }

    /** A client asks while the next slot, at least, is free. */
    method AskNext(conn: int)
      requires Valid() && !mylock[Wrap(last + 1)]
      modifies this`held, this`last, this`slotOf, mylock
      ensures Valid() && last == Wrap(old(last) + 1)
      ensures slotOf == old(slotOf)[conn := last] && mylock[..] == old(mylock[..])[last := true]
    {
      var foreign := seq(RECORD_NUM, _ => false);
      ScanAtOnce(Free(mylock[..], foreign), Wrap(last + 1), RECORD_NUM);
      var reply := HandlePost(conn, foreign);
    }

    /** It sends its post. */
    method Send(conn: int, p: Post, record: string)
      requires Valid() && conn in slotOf && 0 <= last && Sendable(p) && |record| == FROM_LEN + CONTENT_LEN
      modifies this`held, this`str1, this`str2, file, mylock
      ensures Valid() && Shown() == old(Shown())[slotOf[conn] := p]
      ensures mylock[..] == old(mylock[..])[last := false]
    {
      var command := Receive(Printed(p));
      PostRoundTrip(p);
      RecordKeeps(record, p);
      HandleMessage(conn, command, |Printed(p)|, record);
    }

    method PostOne(conn: int, p: Post, record: string)
      requires Valid() && Unlocked() && Sendable(p) && |record| == FROM_LEN + CONTENT_LEN
      modifies this`held, this`last, this`slotOf, this`str1, this`str2, file, mylock
      ensures Valid() && Unlocked() && last == Wrap(old(last) + 1)
      ensures Shown() == old(Shown())[last := p]
    {
      AskNext(conn);
      assert Shown() == old(Shown());
      Send(conn, p, record);
      assert forall k | 0 <= k < RECORD_NUM :: mylock[k] == mylock[..][k];
    }

    /** Any number of clients, one after the other; `records[i]` is what the stack held at post `i`. */
    method PostAll(conns: seq<int>, posts: seq<Post>, records: seq<string>)
      requires Valid() && Unlocked() && |conns| == |posts| == |records|
      requires forall i | 0 <= i < |posts| :: Sendable(posts[i]) && |records[i]| == FROM_LEN + CONTENT_LEN
      modifies this`held, this`last, this`slotOf, this`str1, this`str2, file, mylock
      ensures Valid() && Unlocked()
      ensures Shown() == Ring(old(Shown()), Wrap(old(last) + 1), posts)
      ensures Wrap(last + 1) == Turned(Wrap(old(last) + 1), |posts|)
    {
      var i := 0;
      while i < |posts|
        invariant 0 <= i <= |posts| && Valid() && Unlocked()
        invariant Ring(Shown(), Wrap(last + 1), posts[i..]) == Ring(old(Shown()), Wrap(old(last) + 1), posts)
        invariant Turned(Wrap(last + 1), |posts| - i) == Turned(Wrap(old(last) + 1), |posts|)
      {
        assert posts[i..][1..] == posts[i + 1..];
        PostOne(conns[i], posts[i], records[i]);
        i := i + 1;
      }
    }
  }

  lemma ReleasedIff(locks: seq<bool>, last: nat, mine: nat)
    requires last < |locks| && mine < |locks|
    ensures locks[mine] ==> (locks[last := false] == locks[mine := false] <==> last == mine)
  {
    assert !locks[mine := false][mine];
    if last != mine {
      assert locks[last := false][mine] == locks[mine];
    }
  }

  // ----- the ring -------------------------------------------------------------------------

  predicate Sendable(p: Post) {
    Clean(p) && NUL !in p.from && NUL !in p.content && |p.from| < FROM_LEN && |p.content| < CONTENT_LEN
  }

  lemma {:induction false} ScanAtOnce(free: seq<bool>, start: nat, k: nat)
    requires |free| == RECORD_NUM && start < RECORD_NUM && 0 < k <= RECORD_NUM && free[start]
    ensures Scan(free, start, k) == Some(0)
    decreases k
  {
    if k == 1 {
    } else {
      ScanAtOnce(free, start, k - 1);
    }
  }

  /** The next slot after `n` posts. */
  function Turned(next: nat, n: nat): (r: nat)
    requires next < RECORD_NUM
    ensures r < RECORD_NUM
    decreases n
  {
    if n == 0 then next else Turned(Wrap(next + 1), n - 1)
  }

  /** The board after `posts` are written to successive slots from `next` on. */
  function Ring(view: seq<Post>, next: nat, posts: seq<Post>): (r: seq<Post>)
    requires |view| == RECORD_NUM && next < RECORD_NUM
    ensures |r| == RECORD_NUM
    decreases |posts|
  {
    if posts == [] then view else Ring(view[next := posts[0]], Wrap(next + 1), posts[1..])
  }

  /** The board read once round, beginning with the slot to be overwritten next. */
  function OldestFirst(view: seq<Post>, next: nat): seq<Post>
    requires next < |view|
  {
    view[next..] + view[..next]
  }

  /** The board keeps the newest ten: read oldest first, it is the last ten entries of what it
      showed before followed by all posts. */
  lemma {:induction false} KeepsNewestTen(view: seq<Post>, next: nat, posts: seq<Post>)
    requires |view| == RECORD_NUM && next < RECORD_NUM
    ensures OldestFirst(Ring(view, next, posts), Turned(next, |posts|)) == (OldestFirst(view, next) + posts)[|posts|..]
    decreases |posts|
  {
    if posts == [] {
      assert (OldestFirst(view, next) + posts)[0..] == OldestFirst(view, next);
    } else {
      KeepsNewestTen(view[next := posts[0]], Wrap(next + 1), posts[1..]);
      var all := OldestFirst(view, next);
      assert OldestFirst(view[next := posts[0]], Wrap(next + 1)) == all[1..] + [posts[0]];
      assert all[1..] + [posts[0]] + posts[1..] == (all + posts)[1..];
      assert (all + posts)[1..][|posts| - 1..] == (all + posts)[|posts|..];
    }
  }
}
