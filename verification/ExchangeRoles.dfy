/** Which of its three roles the first target plays, and in which order secrets travel: properties of an
    exchange that its outcome does not show. */
module ExchangeRoles {
  import opened Trees
  import opened TreeEdits
  import opened Text
  import opened Exchange
  import opened ExchangeInvariant
  import opened ExchangeSteps
  import opened ExchangeSearch
  import opened ExchangeTheorems

  // ----- subtrees -------------------------------------------------------------------------

  /** `t` is the subtree of `root` that its name stands for. */
  ghost predicate Within(root: Tree, t: Tree) { t.name in Preorder(root) && Find(root, t.name) == t }

  lemma {:induction false} KidWithin(root: Tree, t: Tree, i: nat)
    requires NoDup(Preorder(root)) && Within(root, t) && i < |t.kids|
    ensures Within(root, t.kids[i])
    decreases root
  {
    if t.name == root.name {
      ChildApart(root, i);
      EditsInside(root, i, t.kids[i].name, "");
    } else {
      var j := ChildWith(root.kids, t.name);
      EditsInside(root, j, t.name, "");
      ChildApart(root, j);
      KidWithin(root.kids[j], t, i);
      EditsInside(root, j, t.kids[i].name, "");
    }
  }

  ghost predicate AllWithin(root: Tree, ts: seq<Tree>) { forall i | 0 <= i < |ts| :: Within(root, ts[i]) }

  /** Whoever the search has still to visit is a subtree of the tree. */
  ghost predicate SearchWithin(c: Config, q: Search) {
    && (q.msg.Down? ==> Within(c.root, q.msg.tree))
    && forall i | 0 <= i < |q.frames| :: AllWithin(c.root, q.frames[i].todo)
  }

  lemma KidsWithin(root: Tree, t: Tree)
    requires NoDup(Preorder(root)) && Within(root, t)
    ensures AllWithin(root, t.kids)
  {
    forall i | 0 <= i < |t.kids| ensures Within(root, t.kids[i]) {
      KidWithin(root, t, i);
    }
  }

  lemma TokenStaysWithin(c: Config, s: State)
    requires ValidConfig(c) && SearchWithin(c, s.search)
    ensures SearchWithin(c, StepToken(c, s).search)
  {
    var q := s.search;
    if q.msg.Down? {
      KidsWithin(c.root, q.msg.tree);
    } else if q.frames != [] && q.msg.NoMsg? && q.frames[0].todo != [] {
      assert AllWithin(c.root, q.frames[0].todo);
      assert Within(c.root, q.frames[0].todo[0]);
      assert AllWithin(c.root, q.frames[0].todo[1..]);
    }
  }

  // ----- where the first target's subtree ends --------------------------------------------

  /** In preorder, the subtree of `n` ends at position `e`. */
  ghost predicate EndsAt(c: Config, n: string, e: nat) {
    && n in Preorder(c.root) && Size(Find(c.root, n)) <= e <= |Preorder(c.root)|
    && Preorder(c.root)[e - Size(Find(c.root, n))..e] == Preorder(Find(c.root, n))
  }

  lemma EndExists(c: Config, n: string) returns (e: nat)
    requires ValidConfig(c) && n in Preorder(c.root)
    ensures EndsAt(c, n, e)
  {
    var a, b := EditsCut(c.root, n, "");
    SizeCounts(Find(c.root, n));
    e := |a| + Size(Find(c.root, n));
    var all, m := Preorder(c.root), Preorder(Find(c.root, n));
    assert all[|a|..|a| + |m|] == m;
  }

  lemma EndIsOne(c: Config, n: string, e: nat, e': nat)
    requires ValidConfig(c) && EndsAt(c, n, e) && EndsAt(c, n, e')
    ensures e == e'
  {
    var all, m := Preorder(c.root), Size(Find(c.root, n));
    SizeCounts(Find(c.root, n));
    assert Preorder(Find(c.root, n))[0] == n;
    assert all[e - m] == all[e - m..e][0] && all[e' - m] == all[e' - m..e'][0];
  }

  /** A service is in the subtree if and only if its position is. */
  lemma InSubtree(c: Config, n: string, e: nat, k: nat)
    requires ValidConfig(c) && EndsAt(c, n, e) && k < |Preorder(c.root)|
    ensures Preorder(c.root)[k] in Preorder(Find(c.root, n)) <==> e - Size(Find(c.root, n)) <= k < e
  {
    var all, m := Preorder(c.root), Size(Find(c.root, n));
    SizeCounts(Find(c.root, n));
    var part := all[e - m..e];
    if e - m <= k < e {
      assert part[k - (e - m)] == all[k];
    }
    if all[k] in part {
      var i :| 0 <= i < |part| && part[i] == all[k];
      assert part[i] == all[e - m + i];
    }
  }

  // ----- how far the search is in it ------------------------------------------------------

  /** Services still to be visited on this side of the first target's return. */
  ghost function BelowFirst(frames: seq<Frame>): seq<string> {
    if frames == [] then []
    else PreorderAll(frames[0].todo) + if frames[0].role.First? then [] else BelowFirst(frames[1..])
  }

  ghost function Below(q: Search): seq<string> {
    (if q.msg.Down? then Preorder(q.msg.tree) else []) + BelowFirst(q.frames)
  }

  lemma BelowPush(f: Frame, rest: seq<Frame>)
    ensures BelowFirst([f] + rest) == PreorderAll(f.todo) + if f.role.First? then [] else BelowFirst(rest)
  {
    assert ([f] + rest)[1..] == rest;
  }

  /** With one target met. */
  ghost predicate OneMet(c: Config, q: Search, first: string, e: nat) {
    if FirstFrames(q.frames) == 0 then e <= |q.log|
    else |q.log| <= e <= |Preorder(c.root)| && q.log + Below(q) == Preorder(c.root)[..e]
  }

  /** With both met: the second one is below the first if and only if the search is, or was, in the
      first one's subtree when it met it. */
  ghost predicate BothMet(c: Config, s: State) {
    var below := s.meet.first in Preorder(c.root) && s.meet.second in Preorder(Find(c.root, s.meet.first));
    && (FirstFrames(s.search.frames) > 0 || s.mode.Direct? ==> below)
    && (s.mode.Waiting? ==> !below)
  }

  ghost predicate RoleInv(c: Config, s: State) {
    && (Found(c, s.search.log) == 1 ==>
         forall e: nat | EndsAt(c, s.meet.first, e) :: OneMet(c, s.search, s.meet.first, e))
    && (Found(c, s.search.log) == 2 ==> BothMet(c, s))
  }

  // ----- a service receives the command ---------------------------------------------------

  lemma Nest(log: seq<string>, n: string, a: seq<string>, b: seq<string>)
    ensures log + (([n] + a) + b) == (log + [n]) + ([] + (a + b))
  {
  }

  /** One more service on the way. */
  lemma RelayGoesOn(c: Config, q: Search, q': Search, first: string, e: nat)
    requires OneMet(c, q, first, e) && q.msg.Down? && q'.msg.NoMsg? && e <= |Preorder(c.root)|
    requires q'.log == q.log + [q.msg.tree.name]
    requires q'.frames == [Frame(Relay, q.msg.tree.kids, q.msg.g)] + q.frames
    ensures OneMet(c, q', first, e)
  {
    var t := q.msg.tree;
    BelowPush(Frame(Relay, t.kids, q.msg.g), q.frames);
    PendingPush(Frame(Relay, t.kids, q.msg.g), q.frames);
    Nest(q.log, t.name, PreorderAll(t.kids), BelowFirst(q.frames));
  }

  lemma RelayKeepsRole(c: Config, s: State)
    requires ValidConfig(c) && Inv(c, s) && RoleInv(c, s) && s.search.msg.Down?
    requires !IsTarget(c, s.search.msg.tree.name)
    ensures RoleInv(c, Receive(c, s))
  {
    var q, q' := s.search, Receive(c, s).search;
    ReceiveKeepsSearch(c, s);
    forall e: nat | Found(c, q.log) == 1 && EndsAt(c, s.meet.first, e)
      ensures OneMet(c, q', s.meet.first, e)
    {
      RelayGoesOn(c, q, q', s.meet.first, e);
    }
  }

  /** What the search does next, were it to go through the whole subtree it has been sent to. */
  lemma Ahead(c: Config, q: Search)
    requires LogInv(c, q) && q.msg.Down? && Found(c, q.log) < 2 && Within(c.root, q.msg.tree)
    ensures var e := |q.log| + Size(q.msg.tree);
      && EndsAt(c, q.msg.tree.name, e) && Preorder(c.root)[..e] == q.log + Preorder(q.msg.tree)
      && |Preorder(q.msg.tree)| == Size(q.msg.tree)
  {
    var all, t := Preorder(c.root), q.msg.tree;
    SizeCounts(t);
    var e := |q.log| + Size(t);
    assert all == q.log + (Preorder(t) + PendingIn(q.frames));
    assert all[|q.log|..e] == Preorder(t) && all[..e] == q.log + Preorder(t);
  }

  lemma FirstReached(c: Config, q: Search, q': Search, e: nat)
    requires ValidConfig(c) && LogInv(c, q) && q.msg.Down? && Found(c, q.log) < 2 && Within(c.root, q.msg.tree)
    requires q'.msg.NoMsg? && q'.log == q.log + [q.msg.tree.name]
    requires q'.frames == [Frame(First, q.msg.tree.kids, q.msg.g + 1)] + q.frames
    requires EndsAt(c, q.msg.tree.name, e)
    ensures OneMet(c, q', q.msg.tree.name, e)
  {
    var t := q.msg.tree;
    Ahead(c, q);
    EndIsOne(c, t.name, e, |q.log| + Size(t));
    FirstBelow(q, q');
  }

  lemma FirstBelow(q: Search, q': Search)
    requires q.msg.Down? && q'.msg.NoMsg? && q'.log == q.log + [q.msg.tree.name]
    requires q'.frames == [Frame(First, q.msg.tree.kids, q.msg.g + 1)] + q.frames
    ensures FirstFrames(q'.frames) > 0 && q'.log + Below(q') == q.log + Preorder(q.msg.tree)
    ensures |q'.log| <= |q.log| + |Preorder(q.msg.tree)|
  {
    var t := q.msg.tree;
    BelowPush(Frame(First, t.kids, q.msg.g + 1), q.frames);
    PendingPush(Frame(First, t.kids, q.msg.g + 1), q.frames);
    Nest(q.log, t.name, PreorderAll(t.kids), []);
  }

  lemma FirstReceives(c: Config, s: State)
    requires s.search.msg.Down? && s.search.msg.g == 0 && IsTarget(c, s.search.msg.tree.name)
    ensures var q, s' := s.search, Receive(c, s);
      && s'.meet.first == q.msg.tree.name && s'.search.msg.NoMsg? && s'.search.log == q.log + [q.msg.tree.name]
      && s'.search.frames == [Frame(First, q.msg.tree.kids, q.msg.g + 1)] + q.frames
  {
  }

  lemma RoleBegins(c: Config, q: Search, s': State)
    requires ValidConfig(c) && LogInv(c, q) && q.msg.Down? && Found(c, q.log) < 2 && Within(c.root, q.msg.tree)
    requires s'.search.msg.NoMsg? && s'.search.log == q.log + [q.msg.tree.name]
    requires s'.search.frames == [Frame(First, q.msg.tree.kids, q.msg.g + 1)] + q.frames
    requires s'.meet.first == q.msg.tree.name && Found(c, s'.search.log) == 1
    ensures RoleInv(c, s')
  {
    forall e: nat | EndsAt(c, q.msg.tree.name, e) ensures OneMet(c, s'.search, q.msg.tree.name, e) {
      FirstReached(c, q, s'.search, e);
    }
  }

  /** The first target: its subtree is what the search does until it returns. */
  lemma FirstKeepsRole(c: Config, s: State)
    requires ValidConfig(c) && LogInv(c, s.search) && s.search.msg.Down? && s.search.msg.g == 0
    requires Within(c.root, s.search.msg.tree)
    requires IsTarget(c, s.search.msg.tree.name) && Found(c, s.search.log) == 0
    ensures RoleInv(c, Receive(c, s))
  {
    NextVisit(c, s.search);
    FirstReceives(c, s);
    RoleBegins(c, s.search, Receive(c, s));
  }

  lemma SecondKeepsRole(c: Config, s: State)
    requires ValidConfig(c) && Inv(c, s) && RoleInv(c, s) && s.search.msg.Down? && !IsTarget(c, c.root.name)
    requires IsTarget(c, s.search.msg.tree.name) && Found(c, s.search.log) == 1
    ensures RoleInv(c, Receive(c, s))
  {
    var q, all, n := s.search, Preorder(c.root), s.search.msg.tree.name;
    var first := s.meet.first;
    ReceiveKeepsSearch(c, s);
    assert all[|q.log|] == (q.log + [n])[|q.log|] == n;
    var e := EndExists(c, first);
    assert OneMet(c, q, first, e);
    InSubtree(c, first, e, |q.log|);
    var k :| 0 <= k < |q.log| && q.log[k] == first;
    assert all[k] == first && first in Preorder(Find(c.root, first));
    InSubtree(c, first, e, k);
    if FirstFrames(q.frames) > 0 {
      assert Below(q) == Preorder(q.msg.tree) + BelowFirst(q.frames);
      assert |q.log + Below(q)| == e;
    }
  }

  lemma ReceiveKeepsRole(c: Config, s: State)
    requires ValidConfig(c) && Inv(c, s) && RoleInv(c, s) && SearchWithin(c, s.search)
    requires s.search.msg.Down? && !IsTarget(c, c.root.name)
    ensures RoleInv(c, Receive(c, s))
  {
    if !IsTarget(c, s.search.msg.tree.name) {
      RelayKeepsRole(c, s);
    } else if Found(c, s.search.log) == 0 {
      FirstKeepsRole(c, s);
    } else {
      SecondKeepsRole(c, s);
    }
  }

  // ----- the other steps of the token -----------------------------------------------------

  /** Moving the token without a visit. */
  lemma TokenKeepsOneMet(c: Config, s: State, s': State)
    requires RoleInv(c, s) && s'.search.log == s.search.log && s'.meet.first == s.meet.first
    requires Found(c, s.search.log) == 1 ==>
      Below(s'.search) == Below(s.search) && FirstFrames(s'.search.frames) == FirstFrames(s.search.frames)
    requires Found(c, s.search.log) == 2 ==> BothMet(c, s')
    ensures RoleInv(c, s')
  {
    forall e: nat | Found(c, s.search.log) == 1 && EndsAt(c, s.meet.first, e)
      ensures OneMet(c, s'.search, s.meet.first, e)
    {
      assert OneMet(c, s.search, s.meet.first, e);
    }
  }

  lemma DeliverKeepsBelow(q: Search)
    requires q.frames != [] && q.msg.Up?
    ensures q.msg.g != 2 ==> Below(Deliver(q)) == Below(q)
  {
    BelowPush(Deliver(q).frames[0], q.frames[1..]);
    BelowPush(q.frames[0], q.frames[1..]);
    assert q.frames == [q.frames[0]] + q.frames[1..];
  }

  lemma AskKeepsBelow(q: Search)
    requires q.frames != [] && q.msg.NoMsg? && q.frames[0].todo != []
    ensures Below(Ask(q)) == Below(q)
  {
    BelowPush(Ask(q).frames[0], q.frames[1..]);
    BelowPush(q.frames[0], q.frames[1..]);
    assert q.frames == [q.frames[0]] + q.frames[1..];
  }

  lemma DeliverKeepsRole(c: Config, s: State)
    requires Inv(c, s) && RoleInv(c, s) && s.search.msg.Up?
    ensures RoleInv(c, s.(search := Deliver(s.search)))
  {
    DeliverKeeps(c, s.search);
    DeliverKeepsBelow(s.search);
    TokenKeepsOneMet(c, s, s.(search := Deliver(s.search)));
  }

  lemma AskKeepsRole(c: Config, s: State)
    requires RoleInv(c, s) && s.search.msg.NoMsg? && s.search.frames != [] && s.search.frames[0].todo != []
    ensures RoleInv(c, s.(search := Ask(s.search)))
  {
    AskKeepsPending(s.search);
    AskKeepsBelow(s.search);
    TokenKeepsOneMet(c, s, s.(search := Ask(s.search)));
  }

  lemma RelayReturnKeepsRole(c: Config, s: State)
    requires Inv(c, s) && RoleInv(c, s) && s.search.msg.NoMsg? && s.search.frames != []
    requires s.search.frames[0].todo == [] && s.search.frames[0].role.Relay?
    ensures RoleInv(c, s.(search := Answer(s.search)))
  {
    var q := s.search;
    AnswerKeeps(c, q);
    BelowPush(q.frames[0], q.frames[1..]);
    assert q.frames == [q.frames[0]] + q.frames[1..];
    TokenKeepsOneMet(c, s, s.(search := Answer(q)));
  }

  /** The first target's child loop is over without the second: the search leaves its subtree. */
  lemma FirstReturnKeepsRole(c: Config, s: State)
    requires Inv(c, s) && RoleInv(c, s) && s.search.msg.NoMsg? && s.search.frames != []
    requires s.search.frames[0].todo == [] && s.search.frames[0].role.First? && s.search.frames[0].g != 2
    ensures RoleInv(c, Return(c, s))
  {
    var q, s' := s.search, Return(c, s);
    AnswerKeeps(c, q);
    assert FirstFrames(q.frames) == 1 && Found(c, q.log) == 1;
    BelowPush(q.frames[0], q.frames[1..]);
    assert q.frames == [q.frames[0]] + q.frames[1..];
    forall e: nat | EndsAt(c, s.meet.first, e) ensures OneMet(c, s'.search, s.meet.first, e) {
      assert OneMet(c, q, s.meet.first, e) && Below(q) == [];
      assert q.log + [] == q.log;
    }
  }

  lemma RootReturnKeepsRole(c: Config, s: State)
    requires ValidConfig(c) && Inv(c, s) && RoleInv(c, s) && s.search.msg.NoMsg? && s.search.frames != []
    requires s.search.frames[0].todo == [] && s.search.frames[0].role.Root?
    ensures RoleInv(c, Return(c, s))
  {
    SearchEnds(c, s.search);
  }

  lemma TokenKeepsRole(c: Config, s: State)
    requires ValidConfig(c) && Inv(c, s) && RoleInv(c, s) && SearchWithin(c, s.search) && !IsTarget(c, c.root.name)
    ensures RoleInv(c, StepToken(c, s))
  {
    var q := s.search;
    if q.msg.Down? {
      ReceiveKeepsRole(c, s);
    } else if q.frames == [] {
    } else if q.msg.Up? {
      DeliverKeepsRole(c, s);
    } else if q.frames[0].todo != [] {
      AskKeepsRole(c, s);
    } else if q.frames[0].role.Relay? {
      RelayReturnKeepsRole(c, s);
    } else if q.frames[0].role.Root? {
      RootReturnKeepsRole(c, s);
    } else if q.frames[0].g != 2 {
      FirstReturnKeepsRole(c, s);
    }
  }

  // ----- whole runs -----------------------------------------------------------------------

  /** The first target's answer, with the second one below it. */
  lemma ReportKeepsRole(c: Config, s: State)
    requires ModeInv(c, s) && RoleInv(c, s) && SearchWithin(c, s.search)
    requires s.meet.p1.Report? && s.search.frames != []
    ensures RoleInv(c, StepFirst(c, s)) && SearchWithin(c, StepFirst(c, s).search)
  {
    var q := s.search;
    assert forall i | 0 <= i < |q.frames| - 1 :: q.frames[1..][i] == q.frames[i + 1];
  }

  /** The targets' steps leave the search alone, but for that answer. */
  lemma OthersKeepRole(c: Config, s: State, x: Actor)
    requires ModeInv(c, s) && RoleInv(c, s) && SearchWithin(c, s.search) && x != Token
    ensures RoleInv(c, Step(c, s, x)) && SearchWithin(c, Step(c, s, x).search)
  {
    if x == FirstTarget && s.meet.p1.Report? && s.search.frames != [] {
      ReportKeepsRole(c, s);
    } else {
      SearchUntouched(c, s, x);
      SameRole(c, s, Step(c, s, x));
    }
  }

  lemma SameRole(c: Config, s: State, s': State)
    requires RoleInv(c, s) && SearchWithin(c, s.search)
    requires s'.search == s.search && s'.mode == s.mode
    requires s'.meet.first == s.meet.first && s'.meet.second == s.meet.second
    ensures RoleInv(c, s') && SearchWithin(c, s'.search)
  {
  }

  lemma SearchUntouched(c: Config, s: State, x: Actor)
    requires x != Token && !(x == FirstTarget && s.meet.p1.Report? && s.search.frames != [])
    ensures var s' := Step(c, s, x);
      s'.search == s.search && s'.mode == s.mode && s'.meet.first == s.meet.first && s'.meet.second == s.meet.second
  {
  }

  lemma StepKeepsRole(c: Config, s: State, x: Actor)
    requires ValidConfig(c) && Inv(c, s) && RoleInv(c, s) && SearchWithin(c, s.search) && !IsTarget(c, c.root.name)
    ensures RoleInv(c, Step(c, s, x)) && SearchWithin(c, Step(c, s, x).search)
  {
    if x == Token {
      TokenKeepsRole(c, s);
      TokenStaysWithin(c, s);
    } else {
      OthersKeepRole(c, s, x);
    }
  }

  lemma {:induction false} RunKeepsRole(c: Config, s: State, schedule: seq<Actor>)
    requires ValidConfig(c) && Inv(c, s) && RoleInv(c, s) && SearchWithin(c, s.search) && !IsTarget(c, c.root.name)
    ensures RoleInv(c, Run(c, s, schedule))
    decreases |schedule|
  {
    if schedule == [] {
    } else {
      StepKeepsInv(c, s, schedule[0]);
      StepKeepsRole(c, s, schedule[0]);
      RunKeepsRole(c, Step(c, s, schedule[0]), schedule[1..]);
    }
  }

  lemma ReachableRole(c: Config, schedule: seq<Actor>)
    requires ValidConfig(c) && !IsTarget(c, c.root.name)
    ensures RoleInv(c, Run(c, Init(c), schedule))
  {
    InitInv(c);
    assert Within(c.root, c.root);
    KidsWithin(c.root, c.root);
    RunKeepsRole(c, Init(c), schedule);
  }

  /** The first target has stored the other's secret. */
  predicate Stored(pc: Pc) { pc.Report? || pc.Unlink? || pc.Done? }

  /** A first target with the second one below it begins only when it has been told so, and keeps its
      parent waiting until it has stored the other's secret. */
  ghost predicate KeepsParentWaiting(s: State) {
    !Spinning(s.meet.p1) && (!s.meet.p1.Idle? && !Stored(s.meet.p1) ==> FirstFrames(s.search.frames) == 1)
  }

  /** Any other has answered its parent before it does anything else. */
  ghost predicate AnswersFirst(s: State) {
    !s.meet.p1.Idle? ==> FirstFrames(s.search.frames) == 0
  }

  lemma RoleOf(c: Config, s: State)
    requires ModeInv(c, s) && RoleInv(c, s) && !IsTarget(c, c.root.name)
    requires Found(c, s.search.log) == 2 && s.meet.first in Preorder(c.root)
    ensures if s.meet.second in Preorder(Find(c.root, s.meet.first)) then KeepsParentWaiting(s) else AnswersFirst(s)
  {
  }

  /** The role of the first target, in every run. A Manager that is a target exchanges when its search is
      over. Any other first target waits for both markers unless the second target is below it, in which
      case it exchanges before it answers its parent. */
  lemma FirstTargetsRole(c: Config, schedule: seq<Actor>)
    requires ValidConfig(c)
    ensures var s := Run(c, Init(c), schedule); var m, found := s.meet, Found(c, s.search.log);
      && (found >= 1 ==> IsTarget(c, m.first) && m.first in Preorder(c.root))
      && (found < 2 ==> m.p1.Idle? || Spinning(m.p1))
      && (IsTarget(c, c.root.name) ==>
           m.first == c.root.name && !Spinning(m.p1)
           && (!m.p1.Idle? ==> s.search.frames == [] && s.search.msg.NoMsg?))
      && (!IsTarget(c, c.root.name) && found == 2 ==>
           if m.second in Preorder(Find(c.root, m.first)) then KeepsParentWaiting(s) else AnswersFirst(s))
  {
    ReachableInv(c, schedule);
    var s := Run(c, Init(c), schedule);
    if !IsTarget(c, c.root.name) && Found(c, s.search.log) == 2 {
      ReachableRole(c, schedule);
      RoleOf(c, s);
    }
  }

  // ----- the files ------------------------------------------------------------------------

  /** A service's marker file is there from its receipt of the command until it is done. The Manager has
      none. */
  ghost predicate HasMarker(c: Config, s: State, n: string) {
    && IsTarget(c, n) && n != c.root.name && n in s.search.log
    && !(n == s.meet.first && s.meet.p1.Done?) && !(n == s.meet.second && s.meet.p2.Done?)
  }

  lemma MarkersOf(c: Config, s: State, n: string)
    requires NamesInv(c, s.search.log, s.meet) && ModeInv(c, s) && MarkerInv(c, s) && LogInv(c, s.search)
    ensures n in s.markers <==> HasMarker(c, s, n)
  {
    assert s.search.log[0] in s.search.log;
  }

  /** In every run the marker files are those, and the Manager announces the exchange only when both FIFOs
      have been removed; nobody removes them before. */
  lemma FilesMean(c: Config, schedule: seq<Actor>, n: string)
    requires ValidConfig(c)
    ensures var s := Run(c, Init(c), schedule);
      && (n in s.markers <==> HasMarker(c, s, n))
      && (s.mpc.Print? || s.mpc.Finish? ==> s.linked == {})
      && (!Closing(s.mpc) ==> s.linked == {c.a + "_to_" + c.b, c.b + "_to_" + c.a})
  {
    ReachableInv(c, schedule);
    MarkersOf(c, Run(c, Init(c), schedule), n);
  }

  // ----- the secrets on their way ---------------------------------------------------------

  /** The FIFO carries the secret of the service its name begins with to the other one. The first target's
      is on its way only when it has read the second target's. */
  ghost predicate Carries(c: Config, m: Meeting, p: string, data: string) {
    && m.first in c.secrets && m.second in c.secrets
    && ((p == m.second + "_to_" + m.first && data == SecretBytes(c.secrets[m.second]))
        || (p == m.first + "_to_" + m.second && data == SecretBytes(c.secrets[m.first])
            && m.tm1 == SecretBytes(c.secrets[m.second])))
  }

  lemma MeetingCarries(c: Config, m: Meeting, p: string)
    requires MeetingInv(c, m) && p in m.fifos && m.fifos[p].data != ""
    ensures Carries(c, m, p, m.fifos[p].data)
  {
  }

  /** In every run, whatever is in a FIFO is what the FIFO is for; the second target's secret goes first. */
  lemma SecondSecretGoesFirst(c: Config, schedule: seq<Actor>, p: string)
    requires ValidConfig(c)
    requires var m := Run(c, Init(c), schedule).meet; p in m.fifos && m.fifos[p].data != ""
    ensures var m := Run(c, Init(c), schedule).meet; Carries(c, m, p, m.fifos[p].data)
  {
    ReachableInv(c, schedule);
    NotApart(c, Run(c, Init(c), schedule), p);
    MeetingCarries(c, Run(c, Init(c), schedule).meet, p);
  }

  lemma NotApart(c: Config, s: State, p: string)
    requires Inv(c, s) && p in s.meet.fifos && s.meet.fifos[p].data != ""
    ensures MeetingInv(c, s.meet)
  {
  }
}
