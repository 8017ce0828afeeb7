/** The found-count of an `exchange`, as the child loops pass it on: every service answers with the
    number of targets met so far, at most two, and stops asking at two. The transfer that the two
    targets start on the way is the subject of module Exchange.
    Models the exchange branches of HierarchicalServiceManagementSystem/service.c. */
module ExchangeCounts {
  import opened Trees
  import opened TreeEdits
  import opened ChildLists
  import opened Text
  import Exchange
  import ExchangeTheorems

  datatype Receipt = Receipt(name: string, count: int)   // a service received this found-count

  predicate Target(a: string, b: string, n: string) { n == a || n == b }

  /** How many of `s` are targets. */
  function Targets(a: string, b: string, s: seq<string>): nat {
    if s == [] then 0 else (if Target(a, b, s[0]) then 1 else 0) + Targets(a, b, s[1..])
  }

  function AtMostTwo(n: int): int { if n < 2 then n else 2 }

  /** Who receives which count when `s` is visited in order, starting with count `g`, up to the
      service that brings the count to two. */
  function Heard(a: string, b: string, s: seq<string>, g: int): seq<Receipt> {
    if s == [] then []
    else
      var g' := if Target(a, b, s[0]) then g + 1 else g;
      [Receipt(s[0], g)] + if g' >= 2 then [] else Heard(a, b, s[1..], g')
  }

  lemma {:induction false} TargetsAppend(a: string, b: string, s: seq<string>, r: seq<string>)
    ensures Targets(a, b, s + r) == Targets(a, b, s) + Targets(a, b, r)
    decreases s
  {
    if s == [] {
      assert s + r == r;
    } else {
      assert (s + r)[1..] == s[1..] + r;
      TargetsAppend(a, b, s[1..], r);
    }
  }

  lemma {:induction false} HeardAppend(a: string, b: string, s: seq<string>, r: seq<string>, g: int)
    requires g < 2
    ensures Heard(a, b, s + r, g) == Heard(a, b, s, g) +
      if g + Targets(a, b, s) < 2 then Heard(a, b, r, g + Targets(a, b, s)) else []
    decreases s
  {
    if s == [] {
      assert s + r == r;
    } else {
      assert (s + r)[0] == s[0] && (s + r)[1..] == s[1..] + r;
      var g' := if Target(a, b, s[0]) then g + 1 else g;
      if g' < 2 {
        HeardAppend(a, b, s[1..], r, g');
        RegroupReceipts([Receipt(s[0], g)], Heard(a, b, s[1..], g'),
                        if g + Targets(a, b, s) < 2 then Heard(a, b, r, g + Targets(a, b, s)) else []);
      }
    }
  }

  /** The targets of a prefix, with its first name apart. */
  lemma TargetsPrefix(a: string, b: string, s: seq<string>, i: nat)
    requires 0 < i <= |s|
    ensures Targets(a, b, s[..i]) == (if Target(a, b, s[0]) then 1 else 0) + Targets(a, b, s[1..][..i - 1])
  {
    assert s[..i][0] == s[0] && s[..i][1..] == s[1..][..i - 1];
  }

  /** The receipts are those of a prefix, each with the number of targets before it. */
  lemma {:induction false} HeardCounts(a: string, b: string, s: seq<string>, g: int, i: nat)
    requires g < 2 && i < |Heard(a, b, s, g)|
    ensures i < |s| && Heard(a, b, s, g)[i] == Receipt(s[i], g + Targets(a, b, s[..i]))
    ensures Heard(a, b, s, g)[i].count < 2
    decreases i
  {
    if i == 0 {
      assert s[..0] == [];
    } else {
      HeardCounts(a, b, s[1..], if Target(a, b, s[0]) then g + 1 else g, i - 1);
      TargetsPrefix(a, b, s, i);
    }
  }

  /** No one hears the command after the count has reached two; everyone does if it does not. */
  lemma {:induction false} HeardStops(a: string, b: string, s: seq<string>, g: int)
    requires g < 2
    ensures var k := |Heard(a, b, s, g)|;
      && k <= |s| && g + Targets(a, b, s[..k]) == AtMostTwo(g + Targets(a, b, s))
      && (k < |s| ==> g + Targets(a, b, s[..k]) == 2)
    decreases s
  {
    if s == [] {
      assert s[..0] == [];
    } else {
      var g' := if Target(a, b, s[0]) then g + 1 else g;
      if g' < 2 {
        HeardStops(a, b, s[1..], g');
      }
      TargetsPrefix(a, b, s, |Heard(a, b, s, g)|);
    }
  }

  lemma RegroupReceipts(a: seq<Receipt>, b: seq<Receipt>, c: seq<Receipt>)
    ensures a + (b + c) == a + b + c
  {
  }

  /** One more child in the loop of `t`. */
  lemma AskNext(a: string, b: string, t: Tree, i: nat, g: int)
    requires i < |t.kids| && g + Targets(a, b, Before(t, i)) < 2
    ensures var n, m := g + Targets(a, b, Before(t, i)), g + Targets(a, b, Before(t, i + 1));
      && m == n + Targets(a, b, Preorder(t.kids[i]))
      && Heard(a, b, Before(t, i + 1), g) == Heard(a, b, Before(t, i), g) + Heard(a, b, Preorder(t.kids[i]), n)
      && (m >= 2 ==>
          g + Targets(a, b, Preorder(t)) >= 2 && Heard(a, b, Preorder(t), g) == Heard(a, b, Before(t, i + 1), g))
  {
    BeforeNext(t, i);
    TargetsAppend(a, b, Before(t, i), Preorder(t.kids[i]));
    HeardAppend(a, b, Before(t, i), Preorder(t.kids[i]), g);
    PreorderAt(t, i);
    TargetsAppend(a, b, Before(t, i + 1), PreorderAll(t.kids[i + 1..]));
    HeardAppend(a, b, Before(t, i + 1), PreorderAll(t.kids[i + 1..]), g);
  }

  /** The service's own name comes first. */
  lemma OwnFirst(a: string, b: string, t: Tree, g: int)
    ensures Before(t, 0) == [t.name]
    ensures Targets(a, b, Before(t, 0)) == (if Target(a, b, t.name) then 1 else 0)
    ensures Heard(a, b, Before(t, 0), g) == [Receipt(t.name, g)]
    ensures Targets(a, b, Preorder(t)) >= Targets(a, b, Before(t, 0))
    ensures g + Targets(a, b, Before(t, 0)) >= 2 ==> Heard(a, b, Preorder(t), g) == [Receipt(t.name, g)]
  {
    assert Preorder(t)[0] == t.name;
    assert [t.name][1..] == [];
  }

  class Searchers {
    var kids: Lists
    var heard: seq<Receipt>

    constructor (kids: Lists)
      ensures this.kids == kids && heard == []
    {
      this.kids, heard := kids, [];
    }

    /** Ask one child: `before` is what had been received when the loop began. */
    method AskChild(child: string, a: string, b: string, gnum: int,
                    ghost t: Tree, ghost i: nat, ghost g: int, ghost before: seq<Receipt>) returns (n: int)
      requires i < |t.kids| && child == t.kids[i].name && Holds(kids, t)
      requires 0 <= gnum == g + Targets(a, b, Before(t, i)) < 2
      requires heard == before + Heard(a, b, Before(t, i), g)
      modifies this`heard
      ensures gnum <= n == AtMostTwo(g + Targets(a, b, Before(t, i + 1)))
      ensures n < 2 ==> heard == before + Heard(a, b, Before(t, i + 1), g)
      ensures n == 2 ==> g + Targets(a, b, Preorder(t)) >= 2 && heard == before + Heard(a, b, Preorder(t), g)
      decreases t, 0
    {
      AskNext(a, b, t, i, g);
      ReplyReads(AtMostTwo(gnum + Targets(a, b, Preorder(t.kids[i]))));
      RegroupReceipts(before, Heard(a, b, Before(t, i), g), Heard(a, b, Preorder(t.kids[i]), gnum));
      var reply := HandleExchange(child, a, b, gnum, t.kids[i]);
      n := Atoi(reply);
    }

    /** The child loop. The first target goes by its own count, and takes over a child's only if that
        is two; the others take over every reply. */
    method AskChildren(me: string, a: string, b: string, isTarget: bool, gnum0: int,
                       ghost t: Tree, ghost g: int, ghost before: seq<Receipt>) returns (gnum: int)
      requires me == t.name && Holds(kids, t) && 0 <= g && (isTarget ==> gnum0 == 1)
      requires 0 <= gnum0 == g + Targets(a, b, Before(t, 0)) < 2 && heard == before + Heard(a, b, Before(t, 0), g)
      modifies this`heard
      ensures gnum == AtMostTwo(g + Targets(a, b, Preorder(t)))
      ensures heard == before + Heard(a, b, Preorder(t), g)
      decreases t, 1
    {
      gnum := gnum0;
      var i := 0;
      while i < |kids[me]|
        invariant i <= |t.kids| && 0 <= gnum == g + Targets(a, b, Before(t, i)) < 2
        invariant isTarget ==> gnum == 1
        invariant heard == before + Heard(a, b, Before(t, i), g)
      {
        var n := AskChild(kids[me][i], a, b, gnum, t, i, g, before);
        if isTarget {
          if n == 2 {
            return n;
          }
        } else {
          gnum := n;
          if gnum == 2 {
            return;
          }
        }
        i := i + 1;
      }
      BeforeAll(t);
    }

    /** A service handles `exchange a b g`; `reply` is what it answers. */
    method HandleExchange(me: string, a: string, b: string, g: int, ghost t: Tree) returns (reply: string)
      requires me == t.name && Holds(kids, t) && 0 <= g < 2
      modifies this`heard
      ensures reply == IntToStr(AtMostTwo(g + Targets(a, b, Preorder(t))))
      ensures heard == old(heard) + Heard(a, b, Preorder(t), g)
      decreases t, 2
    {
      heard := heard + [Receipt(me, g)];
      OwnFirst(a, b, t, g);
      var gnum := g;
      var isTarget := Target(a, b, me);
      if isTarget {
        gnum := gnum + 1;
      }
      if gnum < 2 {
        gnum := AskChildren(me, a, b, isTarget, gnum, t, g, old(heard));
      }
      reply := IntToStr(gnum);
    }
  }

  // ----- the loops and the machine --------------------------------------------------------

  /** Module Exchange counts the targets of a preorder in the same way. */
  lemma {:induction false} FoundIsTargets(c: Exchange.Config, names: seq<string>)
    requires NoDup(names) && c.a != c.b
    ensures Exchange.Found(c, names) == Targets(c.a, c.b, names)
    decreases names
  {
    if names == [] {
    } else {
      assert names[0] !in names[1..];
      FoundIsTargets(c, names[1..]);
    }
  }

  lemma TargetsGrow(a: string, b: string, s: seq<string>, i: nat, j: nat)
    requires i <= j <= |s|
    ensures Targets(a, b, s[..i]) <= Targets(a, b, s[..j])
  {
    assert s[..j] == s[..i] + s[i..j];
    TargetsAppend(a, b, s[..i], s[i..j]);
  }

  /** The receipts end with the first name that brings the count to two. */
  lemma HeardLength(a: string, b: string, s: seq<string>, n: nat)
    requires 0 < n <= |s| && Targets(a, b, s[..n - 1]) < 2 <= Targets(a, b, s[..n])
    ensures |Heard(a, b, s, 0)| == n
  {
    var k := |Heard(a, b, s, 0)|;
    HeardStops(a, b, s, 0);
    TargetsGrow(a, b, s, n, |s|);
    assert s[..|s|] == s;
    if k < n {
      TargetsGrow(a, b, s, k, n - 1);
    } else if n < k {
      HeardCounts(a, b, s, 0, k - 1);
      TargetsGrow(a, b, s, n, k - 1);
    }
  }

  lemma SameReceipts(c: Exchange.Config, log: seq<string>, counts: seq<nat>, s: seq<string>)
    requires NoDup(s) && c.a != c.b && log <= s && |counts| == |log| == |Heard(c.a, c.b, s, 0)|
    requires forall i :: 0 <= i < |log| ==> counts[i] == Exchange.Found(c, log[..i])
    ensures Heard(c.a, c.b, s, 0) == seq(|log|, i requires 0 <= i < |log| => Receipt(log[i], counts[i]))
  {
    forall i | 0 <= i < |log| ensures Heard(c.a, c.b, s, 0)[i] == Receipt(log[i], counts[i]) {
      HeardCounts(c.a, c.b, s, 0, i);
      assert log[..i] == s[..i];
      FoundIsTargets(c, s[..i]);
    }
  }

  /** A log that stops at the second target has the length of the receipts. */
  lemma LogLength(c: Exchange.Config, log: seq<string>, s: seq<string>)
    requires NoDup(s) && c.a != c.b && log <= s && c.a in log && c.b in log
    requires Exchange.IsTarget(c, log[|log| - 1])
    ensures |Heard(c.a, c.b, s, 0)| == |log|
  {
    var n := |log|;
    assert log == s[..n] && s[..n - 1] == log[..n - 1] && log[..n - 1] + [log[n - 1]] == log;
    assert log[n - 1] !in log[..n - 1];
    FoundIsTargets(c, s[..n]);
    FoundIsTargets(c, s[..n - 1]);
    HeardLength(c.a, c.b, s, n);
  }

  /** In every run of the machine the search hears exactly what the child loops hear. */
  lemma MachineHears(c: Exchange.Config, schedule: seq<Exchange.Actor>)
    requires Exchange.ValidConfig(c) && !Exchange.Run(c, Exchange.Init(c), schedule).mpc.Searching?
    ensures var q := Exchange.Run(c, Exchange.Init(c), schedule).search;
      && |q.counts| == |q.log|
      && Heard(c.a, c.b, Preorder(c.root), 0)
         == seq(|q.log|, i requires 0 <= i < |q.log| => Receipt(q.log[i], q.counts[i]))
  {
    var q := Exchange.Run(c, Exchange.Init(c), schedule).search;
    ExchangeTheorems.SearchLog(c, schedule);
    LogLength(c, q.log, Preorder(c.root));
    SameReceipts(c, q.log, q.counts, Preorder(c.root));
  }
}
