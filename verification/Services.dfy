/** `spawn` and `kill` as the services run them: every process knows only its own list of children
    and blocks on one child at a time.
    Models the spawn and kill branches of HierarchicalServiceManagementSystem/service.c. */
module Services {
  import opened Trees
  import opened TreeEdits
  import opened ChildLists
  import opened Text

  /** What the Manager prints at the end of a command. */
  datatype Report = Spawned(parent: string, child: string) | Killed(target: string, others: int) | Missing(name: string)

  /** One turn of a search for `x` through the children of `t`. */
  lemma SearchTurn(t: Tree, i: nat, x: string)
    requires NoDup(Preorder(t)) && i < |t.kids| && x !in Before(t, i)
    ensures NoDup(Preorder(t.kids[i])) && t.name !in Preorder(t.kids[i])
    ensures x in Preorder(t.kids[i]) ==>
      x in Preorder(t) && Until(Preorder(t), x) == Before(t, i) + Until(Preorder(t.kids[i]), x)
    ensures x !in Preorder(t.kids[i]) ==>
      x !in Before(t, i + 1) && Before(t, i + 1) == Before(t, i) + Until(Preorder(t.kids[i]), x)
  {
    ChildApart(t, i);
    BeforeNext(t, i);
    if x in Preorder(t.kids[i]) {
      UntilAt(t, i, x);
    } else {
      UntilAbsent(Preorder(t.kids[i]), x);
    }
  }

  lemma SearchOver(t: Tree, x: string)
    requires x !in Before(t, |t.kids|)
    ensures x !in Preorder(t) && Until(Preorder(t), x) == Before(t, |t.kids|)
  {
    BeforeAll(t);
    UntilAbsent(Preorder(t), x);
  }

  /** What a kill of `x` reports upwards: the size of the subtree that dies. */
  function KillCount(t: Tree, x: string): nat { if x in Preorder(t) then Size(Find(t, x)) else 0 }

  /** The lists after `x`, strictly below `t`, has died with its subtree. */
  ghost predicate AfterKill(k: Lists, k': Lists, t: Tree, x: string)
    requires x in Preorder(t)
  {
    && Holds(k', Remove(t, x)) && k'.Keys == k.Keys - Names(Preorder(Find(t, x)))
    && forall n | n in k && n !in Preorder(t) :: n in k' && k'[n] == k[n]
  }

  /** Child `i` has died: `deleteNode` finishes the kill. */
  lemma ChildDied(k: Lists, k': Lists, t: Tree, i: nat, x: string)
    requires Holds(k, t) && NoDup(Preorder(t)) && i < |t.kids| && x == t.kids[i].name
    requires k' == k - Names(Preorder(t.kids[i]))
    ensures x !in k' && t.name in k' && x in Preorder(t) && Find(t, x) == t.kids[i]
    ensures AfterKill(k, k'[t.name := Without(k'[t.name], x)], t, x)
  {
    assert x in Preorder(t.kids[i]);
    DeleteShrinks(k, k', t, i);
    EditsInside(t, i, x, "");
    ChildApart(t, i);
    assert t.name in Preorder(t);
  }

  /** Someone below child `i` has died: nothing is left to do here. */
  lemma DescendantDied(k: Lists, k': Lists, t: Tree, i: nat, x: string)
    requires Holds(k, t) && NoDup(Preorder(t)) && i < |t.kids| && x != t.kids[i].name
    requires x in Preorder(t.kids[i]) && AfterKill(k, k', t.kids[i], x)
    ensures x in Preorder(t) && Find(t, x) == Find(t.kids[i], x) && AfterKill(k, k', t, x)
  {
    DeeperShrinks(k, k', t, i, x);
    EditsInside(t, i, x, "");
    ChildApart(t, i);
  }

  /** A kill of `x` strictly below `t` that reports `n`: the lists before and after, the processes
      waited for, and the processes that received the command. */
  ghost predicate KilledBelow(k: Lists, k': Lists, reaped: seq<string>, reaped': seq<string>,
                              log: seq<string>, log': seq<string>, n: int, t: Tree, x: string)
  {
    && x in Preorder(t) && x != t.name && AfterKill(k, k', t, x) && n == Size(Find(t, x))
    && reaped' == reaped + Postorder(Find(t, x)) && log' == log + Until(Preorder(t), x)
  }

  /** What that means for the whole tree. */
  lemma KilledLists(k: Lists, k': Lists, t: Tree, x: string)
    requires Holds(k, t) && NoDup(Preorder(t)) && k.Keys == Names(Preorder(t))
    requires x in Preorder(t) && x != t.name && AfterKill(k, k', t, x)
    ensures Unlinked(k, k', Names(Preorder(Find(t, x))), x)
    ensures NoDup(Preorder(Remove(t, x))) && Remove(t, x).name == t.name && k'.Keys == Names(Preorder(Remove(t, x)))
  {
    KillKeepsDistinct(t, x);
    KillLists(k, k', t, x);
  }

  /** The children still to be killed are untouched. */
  lemma TeardownTurn(k: Lists, t: Tree, i: nat)
    requires Holds(k, t) && NoDup(Preorder(t)) && i < |t.kids|
    ensures Holds(k - Names(PreorderAll(t.kids[..i])), t.kids[i]) && NoDup(Preorder(t.kids[i]))
    ensures t.name !in Names(PreorderAll(t.kids[..i + 1])) && t.kids[i].name in Preorder(t.kids[i])
    ensures k - Names(PreorderAll(t.kids[..i])) - Names(Preorder(t.kids[i])) == k - Names(PreorderAll(t.kids[..i + 1]))
  {
    ChildApart(t, i);
    PostorderNext(t.kids, i);
    HoldsElsewhere(k, k - Names(PreorderAll(t.kids[..i])), t.kids[i]);
    RootApart(t, i + 1);
  }

  lemma RootApart(t: Tree, i: nat)
    requires NoDup(Preorder(t)) && i <= |t.kids|
    ensures t.name !in PreorderAll(t.kids[..i])
  {
    assert t.kids == t.kids[..i] + t.kids[i..];
    PreorderAllAppend(t.kids[..i], t.kids[i..]);
    assert [t.name] + PreorderAll(t.kids) + [] == Preorder(t);
    NoDupParts([t.name], PreorderAll(t.kids), []);
    assert t.name in [t.name];
  }

  // ----- sessions: what a sequence of commands does ----------------------------------------

  datatype Request = SpawnRequest(parent: string, child: string) | KillRequest(target: string)

  /** The tree at the end, if the Manager is still there, and everything it printed. */
  datatype Outcome = Outcome(end: Option<Tree>, reports: seq<Report>)

  function Edit(t: Tree, q: Request): Option<Tree> {
    match q
    case SpawnRequest(parent, child) => Some(Grow(t, parent, child))
    case KillRequest(target) => if target == t.name then None else Some(Remove(t, target))
  }

  function ReportOf(t: Tree, q: Request): Report {
    match q
    case SpawnRequest(parent, child) => if parent in Preorder(t) then Spawned(parent, child) else Missing(parent)
    case KillRequest(target) =>
      if target in Preorder(t) then Killed(target, Size(Find(t, target)) - 1) else Missing(target)
  }

  function Session(t: Tree, qs: seq<Request>): (o: Outcome)
    ensures |o.reports| <= |qs| && (o.end.Some? ==> |o.reports| == |qs|) && (qs != [] ==> o.reports != [])
    decreases |qs|
  {
    if qs == [] then Outcome(Some(t), [])
    else
      var report := ReportOf(t, qs[0]);
      match Edit(t, qs[0])
      case None => Outcome(None, [report])
      case Some(t') => var rest := Session(t', qs[1..]); Outcome(rest.end, [report] + rest.reports)
  }

  /** Every name to be spawned is new when its turn comes. */
  ghost predicate Fresh(t: Tree, qs: seq<Request>)
    decreases |qs|
  {
    qs != [] ==>
      && (qs[0].SpawnRequest? ==> qs[0].child !in Preorder(t))
      && (Edit(t, qs[0]).Some? ==> Fresh(Edit(t, qs[0]).value, qs[1..]))
  }

  lemma Accumulate(done: seq<Report>, report: Report, t: Tree, qs: seq<Request>)
    requires qs != [] && report == ReportOf(t, qs[0])
    ensures done + Session(t, qs).reports ==
      match Edit(t, qs[0]) case None => done + [report] case Some(t') => done + [report] + Session(t', qs[1..]).reports
  {
  }

  /** The reports come in the order of the commands: the one at `i` is what command `i` does to the tree
      that the commands before it have left. */
  lemma {:induction false} SessionReports(t: Tree, qs: seq<Request>, i: nat)
    requires i < |Session(t, qs).reports|
    ensures i < |qs| && Session(t, qs[..i]).end.Some?
    ensures var before := Session(t, qs[..i]).end.value;
      && Session(t, qs).reports[i] == ReportOf(before, qs[i])
      && Session(t, qs[..i + 1]).end == Edit(before, qs[i])
    decreases |qs|
  {
    assert qs != [];
    var first := Edit(t, qs[0]);
    if i == 0 {
      assert qs[..0] == [] && qs[..1][0] == qs[0] && qs[..1][1..] == [];
    } else {
      assert qs[..i][0] == qs[0] && qs[..i][1..] == qs[1..][..i - 1];
      assert qs[..i + 1][0] == qs[0] && qs[..i + 1][1..] == qs[1..][..i];
      SessionReports(first.value, qs[1..], i - 1);
    }
  }

  /** The number of services that a list of reports says were born, and died. */
  function Born(reports: seq<Report>): nat {
    if reports == [] then 0 else (if reports[0].Spawned? then 1 else 0) + Born(reports[1..])
  }

  function Dead(reports: seq<Report>): int {
    if reports == [] then 0 else (if reports[0].Killed? then reports[0].others + 1 else 0) + Dead(reports[1..])
  }

  /** The printed reports account for every service: over any session, those that were there and
      those spawned are the ones still there and the ones reported killed. */
  lemma {:induction false} ReportsBalance(t: Tree, qs: seq<Request>)
    requires NoDup(Preorder(t)) && Fresh(t, qs)
    ensures var o := Session(t, qs);
      Size(t) + Born(o.reports) == (if o.end.Some? then Size(o.end.value) else 0) + Dead(o.reports)
    decreases |qs|
  {
    if qs == [] {
    } else {
      EditBalance(t, qs[0]);
      var o := Session(t, qs);
      assert o.reports[0] == ReportOf(t, qs[0]);
      if Edit(t, qs[0]).Some? {
        ReportsBalance(Edit(t, qs[0]).value, qs[1..]);
        assert o.reports[1..] == Session(Edit(t, qs[0]).value, qs[1..]).reports;
      }
    }
  }

  lemma EditBalance(t: Tree, q: Request)
    requires NoDup(Preorder(t)) && (q.SpawnRequest? ==> q.child !in Preorder(t))
    ensures var end, report := Edit(t, q), ReportOf(t, q);
      && (end.Some? ==> NoDup(Preorder(end.value)) && end.value.name == t.name)
      && Size(t) + (if report.Spawned? then 1 else 0)
         == (if end.Some? then Size(end.value) else 0) + (if report.Killed? then report.others + 1 else 0)
  {
    match q
    case SpawnRequest(parent, child) =>
      if parent in Preorder(t) {
        SpawnKeepsDistinct(t, parent, child);
        var a, b := EditsCut(t, parent, child);
        SizeCounts(t);
        SizeCounts(Grow(t, parent, child));
      } else {
        GrowAbsent(t, parent, child);
      }
    case KillRequest(target) =>
      if target !in Preorder(t) {
        RemoveAbsent(t, target);
      } else if target != t.name {
        KillKeepsDistinct(t, target);
      }
  }

  /** A Manager without children. */
  lemma Alone(manager: string, kids: Lists)
    requires kids == map[manager := []]
    ensures var t := Node(manager, []);
      Holds(kids, t) && NoDup(Preorder(t)) && kids.Keys == Names(Preorder(t))
  {
    assert RootNames([]) == [];
    assert Preorder(Node(manager, [])) == [manager];
  }

  /** Between the two states of the log exactly the services of `all` up to and including `x` have
      printed that they have received the command; all of them if `x` is not there. */
  ghost predicate Heard(log: seq<string>, log': seq<string>, all: seq<string>, x: string) {
    exists n: nat | StopsAt(all, n, x) :: log' == log + all[..n]
  }

  lemma LogGrows(log: seq<string>, log': seq<string>, all: seq<string>, x: string)
    requires log' == log + Until(all, x)
    ensures Heard(log, log', all, x)
  {
    var n := UntilStops(all, x);
  }

  lemma UntilRoot(t: Tree)
    ensures Until(Preorder(t), t.name) == [t.name]
  {
  }

  /** A kill of somebody who is not there changes nothing. */
  lemma Killing(t: Tree, x: string)
    ensures t.name in Preorder(t) && (x !in Preorder(t) ==> Remove(t, x) == t)
  {
    assert t.name == Preorder(t)[0];
    if x !in Preorder(t) {
      RemoveAbsent(t, x);
    }
  }

  /** All live processes. */
  class Network {
    var kids: Lists             // each live process's own child list
    var log: seq<string>        // processes that printed "has received", in order
    var reaped: seq<string>     // children that were waited for, in order
    const manager: string
    ghost var tree: Tree        // what the lists spell out

    ghost predicate Valid()
      reads this
    {
      && tree.name == manager && NoDup(Preorder(tree))
      && Holds(kids, tree) && kids.Keys == Names(Preorder(tree))
    }

    constructor (manager: string)
      ensures Valid() && tree == Node(manager, []) && log == [] && reaped == []
    {
      Alone(manager, map[manager := []]);
      kids, log, reaped, tree := map[manager := []], [], [], Node(manager, []);
      this.manager := manager;
    }

    /** `waitpid` on a child that has exited. */
    method Wait(child: string)
      requires child !in kids
      modifies this`reaped
      ensures reaped == old(reaped) + [child]
    {
      reaped := reaped + [child];
    }

    /** A service handles `spawn`; `reply` is what it writes to its parent. */
    method HandleSpawn(me: string, parent: string, child: string, ghost t: Tree) returns (reply: string)
      requires me == t.name && Holds(kids, t) && NoDup(Preorder(t)) && child !in kids
      modifies this`kids, this`log
      ensures reply == (if parent in Preorder(t) then "Y" else "N")
      ensures kids == if parent in Preorder(t) then Adopt(old(kids), parent, child) else old(kids)
      ensures parent in Preorder(t) ==>
        parent in old(kids) && kids == old(kids)[parent := old(kids)[parent] + [child]][child := []]
      ensures log == old(log) + Until(Preorder(t), parent) && Heard(old(log), log, Preorder(t), parent)
      decreases t
    {
      HoldsKeys(kids, t);
      log := log + [me];
      reply := "N";
      if parent == me {
        kids := Adopt(kids, me, child);
        reply := "Y";
      } else {
        var i := 0;
        assert Before(t, 0) == [me];
        while i < |kids[me]|
          invariant i <= |t.kids| && kids == old(kids) && reply == "N"
          invariant log == old(log) + Before(t, i) && parent !in Before(t, i)
        {
          SearchTurn(t, i, parent);
          Regroup(old(log), Before(t, i), Until(Preorder(t.kids[i]), parent));
          reply := HandleSpawn(kids[me][i], parent, child, t.kids[i]);
          if reply == "Y" {
            break;
          }
          i := i + 1;
        }
        if reply == "N" {
          SearchOver(t, parent);
        }
      }
      LogGrows(old(log), log, Preorder(t), parent);
    }

    /** Kill the children one by one, each with its whole subtree, and wait for each; `num` sums
        their replies. */
    method KillChildren(me: string, ghost t: Tree) returns (num: int)
      requires me == t.name && Holds(kids, t) && NoDup(Preorder(t))
      modifies this`kids, this`reaped
      ensures num == SizeAll(t.kids) && kids == old(kids) - Names(PreorderAll(t.kids))
      ensures reaped == old(reaped) + PostorderAll(t.kids)
      decreases t, 0
    {
      num := 0;
      var i := 0;
      RootApart(t, 0);
      while i < |kids[me]|
        invariant i <= |t.kids| && num == SizeAll(t.kids[..i])
        invariant me !in PreorderAll(t.kids[..i]) && kids == old(kids) - Names(PreorderAll(t.kids[..i]))
        invariant reaped == old(reaped) + PostorderAll(t.kids[..i])
      {
        TeardownTurn(old(kids), t, i);
        PostorderNext(t.kids, i);
        Regroup(old(reaped), PostorderAll(t.kids[..i]), Postorder(t.kids[i]));
        var n := KillChild(kids[me][i], t.kids[i]);
        num := num + n;
        i := i + 1;
      }
      assert t.kids[..i] == t.kids;
    }

    /** Send `kill` with the mark Y to one child, read its reply and wait for it. */
    method KillChild(child: string, ghost t: Tree) returns (n: int)
      requires child == t.name && Holds(kids, t) && NoDup(Preorder(t))
      modifies this`kids, this`reaped
      ensures n == Size(t) && kids == old(kids) - Names(Preorder(t))
      ensures reaped == old(reaped) + Postorder(t)
      decreases t, 2
    {
      var reply := HandleTeardown(child, t);
      ReplyReads(Size(t));
      n := Atoi(reply);
      assert child == Preorder(t)[0];
      Wait(child);
    }

    /** A service handles `kill` with the mark Y, or is the target itself: it kills its children,
        answers and exits. */
    method HandleTeardown(me: string, ghost t: Tree) returns (reply: string)
      requires me == t.name && Holds(kids, t) && NoDup(Preorder(t))
      modifies this`kids, this`reaped
      ensures reply == IntToStr(Size(t)) && kids == old(kids) - Names(Preorder(t))
      ensures reaped == old(reaped) + PostorderAll(t.kids)
      decreases t, 1
    {
      var num := KillChildren(me, t);
      reply := IntToStr(num + 1);
      kids := kids - {me};
    }

    /** Pass `kill` with the mark N to child `i` and read its reply; if the child was the target, wait
        for it and take it off the list. */
    method KillBelow(me: string, i: nat, target: string, ghost t: Tree, ghost before: seq<string>) returns (n: int)
      requires me == t.name && Holds(kids, t) && NoDup(Preorder(t)) && i < |t.kids|
      requires target != me && target !in Before(t, i) && log == before + Before(t, i)
      modifies this`kids, this`log, this`reaped
      ensures if target in Preorder(t.kids[i])
        then n > 0 && KilledBelow(old(kids), kids, old(reaped), reaped, before, log, n, t, target)
        else n == 0 && kids == old(kids) && reaped == old(reaped)
             && log == before + Before(t, i + 1) && target !in Before(t, i + 1)
      decreases t, 1
    {
      SearchTurn(t, i, target);
      Regroup(before, Before(t, i), Until(Preorder(t.kids[i]), target));
      var child := kids[me][i];
      var reply := HandleKill(child, target, t.kids[i]);
      ReplyReads(KillCount(t.kids[i], target));
      n := Atoi(reply);
      if child == target {
        ChildDied(old(kids), kids, t, i, target);
        Wait(child);
        kids := kids[me := Without(kids[me], target)];
      } else if target in Preorder(t.kids[i]) {
        DescendantDied(old(kids), kids, t, i, target);
      }
    }

    /** The child loop of `kill`: go on until a reply is positive. The Manager tests the reply before
        the child's name, which makes no difference: a child of that name replies at least 1. */
    method KillAmongChildren(me: string, target: string, ghost t: Tree, ghost before: seq<string>)
      returns (num: int, last: int)
      requires me == t.name && target != me && Holds(kids, t) && NoDup(Preorder(t)) && log == before + [me]
      modifies this`kids, this`log, this`reaped
      ensures num == last
      ensures if target in Preorder(t)
        then num > 0 && KilledBelow(old(kids), kids, old(reaped), reaped, before, log, num, t, target)
        else num == 0 && kids == old(kids) && reaped == old(reaped) && log == before + Preorder(t)
      decreases t, 2
    {
      num, last := 0, 0;
      var i := 0;
      assert Before(t, 0) == [me];
      while i < |kids[me]|
        invariant i <= |t.kids| && kids == old(kids) && num == last == 0 && reaped == old(reaped)
        invariant log == before + Before(t, i) && target !in Before(t, i)
      {
        last := KillBelow(me, i, target, t, before);
        num := num + last;
        if num > 0 {
          return;
        }
        i := i + 1;
      }
      BeforeAll(t);
    }

    /** A service handles `kill` with the mark N. */
    method HandleKill(me: string, target: string, ghost t: Tree) returns (reply: string)
      requires me == t.name && Holds(kids, t) && NoDup(Preorder(t))
      modifies this`kids, this`log, this`reaped
      ensures reply == IntToStr(KillCount(t, target))
      ensures log == old(log) + Until(Preorder(t), target) && Heard(old(log), log, Preorder(t), target)
      ensures target !in Preorder(t) ==> kids == old(kids) && reaped == old(reaped)
      ensures target == me ==>
        kids == old(kids) - Names(Preorder(t)) && reaped == old(reaped) + PostorderAll(t.kids)
      ensures target in Preorder(t) && target != me ==>
        KilledBelow(old(kids), kids, old(reaped), reaped, old(log), log, Size(Find(t, target)), t, target)
      ensures target in Preorder(t) && target != me ==>
        Unlinked(old(kids), kids, Names(Preorder(Find(t, target))), target)
      decreases t, 3
    {
      log := log + [me];
      if target == me {
        reply := HandleTeardown(me, t);
      } else {
        var num, _ := KillAmongChildren(me, target, t, old(log));
        if target !in Preorder(t) {
          UntilAbsent(Preorder(t), target);
        } else {
          KillLists(old(kids), kids, t, target);
        }
        reply := IntToStr(num);
      }
      LogGrows(old(log), log, Preorder(t), target);
    }

    /** The Manager carries out `spawn parent child`. */
    method Spawn(parent: string, child: string) returns (report: Report)
      requires Valid() && child !in kids
      modifies this
      ensures Valid() && tree == Grow(old(tree), parent, child)
      ensures report == if parent in Preorder(old(tree)) then Spawned(parent, child) else Missing(parent)
      ensures log == old(log) + Until(Preorder(old(tree)), parent) && reaped == old(reaped)
      ensures Heard(old(log), log, Preorder(old(tree)), parent)
      ensures if parent in old(kids)
        then kids == old(kids)[parent := old(kids)[parent] + [child]][child := []]
        else kids == old(kids)
      ensures if parent in Preorder(old(tree))
        then parent in Preorder(tree) && Find(tree, parent).kids == Find(old(tree), parent).kids + [Node(child, [])]
        else tree == old(tree)
    {
      var reply := HandleSpawn(manager, parent, child, tree);
      report := if reply == "Y" then Spawned(parent, child) else Missing(parent);
      if parent in Preorder(tree) {
        AdoptGrows(old(kids), tree, parent, child);
        SpawnKeepsDistinct(tree, parent, child);
        GrowAt(tree, parent, child);
        assert parent in old(kids);
      } else {
        GrowAbsent(tree, parent, child);
      }
      tree := Grow(tree, parent, child);
    }

    /** The Manager carries out `kill target`. Killing the Manager ends the session. */
    method Kill(target: string) returns (report: Report)
      requires Valid()
      modifies this
      ensures target != manager ==> Valid()
      ensures target !in Preorder(old(tree)) ==>
        report == Missing(target) && tree == old(tree) && kids == old(kids) && reaped == old(reaped)
      ensures target in Preorder(old(tree)) && target != manager ==>
        && report == Killed(target, Size(Find(old(tree), target)) - 1) && tree == Remove(old(tree), target)
        && reaped == old(reaped) + Postorder(Find(old(tree), target))
        && Unlinked(old(kids), kids, Names(Preorder(Find(old(tree), target))), target)
      ensures target == manager ==>
        && report == Killed(target, Size(old(tree)) - 1)
        && kids == map[] && reaped == old(reaped) + PostorderAll(old(tree).kids)
      ensures Heard(old(log), log, Preorder(old(tree)), target)
    {
      if target == manager {
        report := KillAll();
      } else {
        report := KillOther(target);
      }
    }

    /** The Manager prints that it has received the command, and kills everybody and itself. */
    method KillAll() returns (report: Report)
      requires Valid()
      modifies this`kids, this`log, this`reaped
      ensures report == Killed(manager, Size(tree) - 1)
      ensures kids == map[] && reaped == old(reaped) + PostorderAll(tree.kids)
      ensures Heard(old(log), log, Preorder(tree), manager)
    {
      log := log + [manager];
      UntilRoot(tree);
      LogGrows(old(log), log, Preorder(tree), manager);
      var num := KillChildren(manager, tree);
      report := Killed(manager, num);
      kids := kids - {manager};
    }

    /** Somebody else. */
    method KillOther(target: string) returns (report: Report)
      requires Valid() && target != manager
      modifies this
      ensures Valid() && Heard(old(log), log, Preorder(old(tree)), target)
      ensures target !in Preorder(old(tree)) ==>
        report == Missing(target) && tree == old(tree) && kids == old(kids) && reaped == old(reaped)
      ensures target in Preorder(old(tree)) ==>
        && report == Killed(target, Size(Find(old(tree), target)) - 1) && tree == Remove(old(tree), target)
        && reaped == old(reaped) + Postorder(Find(old(tree), target))
        && Unlinked(old(kids), kids, Names(Preorder(Find(old(tree), target))), target)
    {
      ghost var k, r, l, t := kids, reaped, log, tree;
      log := log + [manager];
      report := PassOn(target, k, r, l, t);
    }

    /** It passes the command on; `k`, `r`, `l` and `t` are the state before it arrived. */
    method PassOn(target: string, ghost k: Lists, ghost r: seq<string>, ghost l: seq<string>, ghost t: Tree)
      returns (report: Report)
      requires Valid() && target != manager && log == l + [manager] && kids == k && reaped == r && tree == t
      modifies this
      ensures Valid() && Heard(l, log, Preorder(t), target)
      ensures target !in Preorder(t) ==> report == Missing(target) && tree == t && kids == k && reaped == r
      ensures target in Preorder(t) ==>
        && report == Killed(target, Size(Find(t, target)) - 1) && tree == Remove(t, target)
        && reaped == r + Postorder(Find(t, target))
        && Unlinked(k, kids, Names(Preorder(Find(t, target))), target)
    {
      var num, last := KillAmongChildren(manager, target, t, l);
      report := if num == 0 then Missing(target) else Killed(target, last - 1);
      if target in Preorder(t) {
        KilledLists(k, kids, t, target);
        tree := Remove(t, target);
      } else {
        UntilAbsent(Preorder(t), target);
      }
      LogGrows(l, log, Preorder(t), target);
    }

    method SpawnCommand(parent: string, child: string) returns (report: Report)
      requires Valid() && child !in kids
      modifies this
      ensures report == ReportOf(old(tree), SpawnRequest(parent, child))
      ensures Valid() && Edit(old(tree), SpawnRequest(parent, child)) == Some(tree)
    {
      report := Spawn(parent, child);
    }

    method KillCommand(target: string) returns (report: Report)
      requires Valid()
      modifies this
      ensures report == ReportOf(old(tree), KillRequest(target))
      ensures if target == manager then kids == map[] && Edit(old(tree), KillRequest(target)).None?
        else Valid() && Edit(old(tree), KillRequest(target)) == Some(tree)
    {
      Killing(tree, target);
      report := Kill(target);
    }

    /** One command. */
    method Handle(q: Request) returns (report: Report, live: bool)
      requires Valid() && (q.SpawnRequest? ==> q.child !in Preorder(tree))
      modifies this
      ensures report == ReportOf(old(tree), q) && live == Edit(old(tree), q).Some?
      ensures if live then Valid() && tree == Edit(old(tree), q).value else kids == map[]
    {
      live := true;
      match q
      case SpawnRequest(parent, child) =>
        report := SpawnCommand(parent, child);
      case KillRequest(target) =>
        report := KillCommand(target);
        live := target != manager;
    }

    /** The Manager's command loop: it stops when it has killed itself. */
    method Serve(requests: seq<Request>) returns (reports: seq<Report>, live: bool)
      requires Valid() && Fresh(tree, requests)
      modifies this
      ensures Session(old(tree), requests).reports == reports
      ensures live == Session(old(tree), requests).end.Some?
      ensures if live then Valid() && tree == Session(old(tree), requests).end.value else kids == map[]
    {
      reports, live := [], true;
      var i := 0;
      while i < |requests|
        invariant i <= |requests| && live && Valid() && Fresh(tree, requests[i..])
        invariant Session(old(tree), requests)
               == Outcome(Session(tree, requests[i..]).end, reports + Session(tree, requests[i..]).reports)
      {
        assert requests[i..][0] == requests[i] && requests[i..][1..] == requests[i + 1..];
        Accumulate(reports, ReportOf(tree, requests[i]), tree, requests[i..]);
        var report;
        report, live := Handle(requests[i]);
        reports := reports + [report];
        if !live {
          return;
        }
        i := i + 1;
      }
    }
  }
}
