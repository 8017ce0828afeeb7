/** What spawn and kill do to the tree of services. */
module TreeEdits {
  import opened Trees

  // ----- preorders ------------------------------------------------------------------------

  function Names(s: seq<string>): set<string> { set n | n in s }

  function RootNames(ts: seq<Tree>): seq<string> { seq(|ts|, i requires 0 <= i < |ts| => ts[i].name) }

  lemma {:induction false} PreorderAllAppend(a: seq<Tree>, b: seq<Tree>)
    ensures PreorderAll(a + b) == PreorderAll(a) + PreorderAll(b)
    decreases |a|
  {
    if a == [] {
      assert a + b == b;
    } else {
      assert (a + b)[1..] == a[1..] + b;
      PreorderAllAppend(a[1..], b);
    }
  }

  lemma Regroup(a: seq<string>, b: seq<string>, c: seq<string>)
    ensures a + (b + c) == (a + b) + c
  {
  }

  /** The preorder of a forest around its tree `i`. */
  lemma {:induction false} PreorderAllAt(ts: seq<Tree>, i: nat)
    requires i < |ts|
    ensures PreorderAll(ts) == PreorderAll(ts[..i]) + Preorder(ts[i]) + PreorderAll(ts[i + 1..])
    decreases i
  {
    if i == 0 {
    } else {
      PreorderAllAt(ts[1..], i - 1);
      assert ts[1..][..i - 1] == ts[..i][1..] && ts[1..][i..] == ts[i + 1..];
      var a, b, c := PreorderAll(ts[..i][1..]), Preorder(ts[i]), PreorderAll(ts[i + 1..]);
      Regroup(Preorder(ts[0]), a + b, c);
      Regroup(Preorder(ts[0]), a, b);
    }
  }

  /** The preorder of a tree around its child `i`. */
  lemma PreorderAt(t: Tree, i: nat)
    requires i < |t.kids|
    ensures Preorder(t) == Before(t, i) + Preorder(t.kids[i]) + PreorderAll(t.kids[i + 1..])
  {
    PreorderAllAt(t.kids, i);
    var a, b, c := PreorderAll(t.kids[..i]), Preorder(t.kids[i]), PreorderAll(t.kids[i + 1..]);
    Regroup([t.name], a + b, c);
    Regroup([t.name], a, b);
  }

  /** What is visited before child `i`. */
  function Before(t: Tree, i: nat): seq<string>
    requires i <= |t.kids|
  {
    [t.name] + PreorderAll(t.kids[..i])
  }

  lemma BeforeNext(t: Tree, i: nat)
    requires i < |t.kids|
    ensures Before(t, i + 1) == Before(t, i) + Preorder(t.kids[i])
  {
    PreorderAllAt(t.kids[..i + 1], i);
    assert t.kids[..i + 1][..i] == t.kids[..i];
    Regroup([t.name], PreorderAll(t.kids[..i]), Preorder(t.kids[i]));
  }

  lemma BeforeAll(t: Tree)
    ensures Before(t, |t.kids|) == Preorder(t)
  {
    assert t.kids[..|t.kids|] == t.kids;
  }

  ghost predicate Apart(a: seq<string>, b: seq<string>) {
    forall n | n in a :: n !in b
  }

  lemma NoDupParts(a: seq<string>, b: seq<string>, c: seq<string>)
    requires NoDup(a + b + c)
    ensures NoDup(b) && Apart(a, b) && Apart(b, c) && Apart(b, a) && Apart(c, b) && NoDup(a + c)
  {
    var s := a + b + c;
    assert s[..|a|] == a && s[|a|..|a| + |b|] == b && s[|a| + |b|..] == c;
    assert forall i | 0 <= i < |a| :: s[i] == a[i];
    assert forall i | 0 <= i < |b| :: s[|a| + i] == b[i];
    assert forall i | 0 <= i < |c| :: s[|a| + |b| + i] == c[i];
    forall i, j | 0 <= i < j < |a + c| ensures (a + c)[i] != (a + c)[j] {
      var i', j' := if i < |a| then i else i + |b|, if j < |a| then j else j + |b|;
      assert s[i'] != s[j'];
    }
  }

  /** In a tree of distinct names the names of a child's subtree are its own. */
  lemma ChildApart(t: Tree, i: nat)
    requires NoDup(Preorder(t)) && i < |t.kids|
    ensures NoDup(Preorder(t.kids[i]))
    ensures Apart(Preorder(t.kids[i]), Before(t, i)) && Apart(Before(t, i), Preorder(t.kids[i]))
    ensures Apart(Preorder(t.kids[i]), PreorderAll(t.kids[i + 1..]))
    ensures Apart(PreorderAll(t.kids[i + 1..]), Preorder(t.kids[i]))
    ensures forall n | n in Preorder(t.kids[i]) :: n in Preorder(t)
    ensures t.name !in Preorder(t.kids[i]) && t.kids[i].name in Preorder(t.kids[i])
  {
    PreorderAt(t, i);
    NoDupParts(Before(t, i), Preorder(t.kids[i]), PreorderAll(t.kids[i + 1..]));
    assert Before(t, i)[0] == t.name;
  }

  lemma SiblingApart(t: Tree, i: nat, j: nat)
    requires NoDup(Preorder(t)) && i < |t.kids| && j < |t.kids| && i != j
    ensures t.name !in Preorder(t.kids[j]) && Apart(Preorder(t.kids[j]), Preorder(t.kids[i]))
  {
    ChildApart(t, j);
    if i < j {
      PreorderAllAt(t.kids[..j], i);
    } else {
      PreorderAllAt(t.kids[j + 1..], i - j - 1);
    }
  }

  // ----- spawn ----------------------------------------------------------------------------

  /** `child` becomes the last child of `parent`. */
  function Grow(t: Tree, parent: string, child: string): Tree
    decreases t
  {
    if t.name == parent then Node(t.name, t.kids + [Node(child, [])])
    else Node(t.name, GrowAll(t.kids, parent, child))
  }

  function GrowAll(ts: seq<Tree>, parent: string, child: string): seq<Tree>
    decreases ts
  {
    if ts == [] then [] else [Grow(ts[0], parent, child)] + GrowAll(ts[1..], parent, child)
  }

  // ----- kill -----------------------------------------------------------------------------

  /** The tree without the subtrees named `target` below its root. */
  function Remove(t: Tree, target: string): Tree
    decreases t
  {
    Node(t.name, RemoveAll(t.kids, target))
  }

  function RemoveAll(ts: seq<Tree>, target: string): seq<Tree>
    decreases ts
  {
    if ts == [] then []
    else (if ts[0].name == target then [] else [Remove(ts[0], target)]) + RemoveAll(ts[1..], target)
  }

  /** The subtree with root `name`. */
  function Find(t: Tree, name: string): (sub: Tree)
    requires name in Preorder(t)
    ensures sub.name == name
    decreases t
  {
    if t.name == name then t else FindAll(t.kids, name)
  }

  function FindAll(ts: seq<Tree>, name: string): (sub: Tree)
    requires name in PreorderAll(ts)
    ensures sub.name == name
    decreases ts
  {
    if name in Preorder(ts[0]) then Find(ts[0], name) else FindAll(ts[1..], name)
  }

  // ----- the edits and the preorder -------------------------------------------------------

  lemma {:induction false} GrowAbsent(t: Tree, parent: string, child: string)
    requires parent !in Preorder(t)
    ensures Grow(t, parent, child) == t
    decreases t
  {
    GrowAllAbsent(t.kids, parent, child);
  }

  lemma {:induction false} GrowAllAbsent(ts: seq<Tree>, parent: string, child: string)
    requires parent !in PreorderAll(ts)
    ensures GrowAll(ts, parent, child) == ts
    decreases ts
  {
    if ts == [] {
    } else {
      GrowAbsent(ts[0], parent, child);
      GrowAllAbsent(ts[1..], parent, child);
    }
  }

  lemma {:induction false} RemoveAbsent(t: Tree, target: string)
    requires target !in Preorder(t)
    ensures Remove(t, target) == t
    decreases t
  {
    RemoveAllAbsent(t.kids, target);
  }

  lemma {:induction false} RemoveAllAbsent(ts: seq<Tree>, target: string)
    requires target !in PreorderAll(ts)
    ensures RemoveAll(ts, target) == ts
    decreases ts
  {
    if ts == [] {
    } else {
      assert ts[0].name in Preorder(ts[0]);
      RemoveAbsent(ts[0], target);
      RemoveAllAbsent(ts[1..], target);
    }
  }

  // ----- edits inside one child -----------------------------------------------------------

  /** The child whose subtree holds `x`, and only that one. */
  lemma {:induction false} ChildWith(ts: seq<Tree>, x: string) returns (i: nat)
    requires x in PreorderAll(ts)
    ensures i < |ts| && x in Preorder(ts[i]) && x !in PreorderAll(ts[..i])
    decreases ts
  {
    if x in Preorder(ts[0]) {
      i := 0;
    } else {
      var k := ChildWith(ts[1..], x);
      i := k + 1;
      assert ts[..i][1..] == ts[1..][..k];
    }
  }

  lemma {:induction false} FindAllAt(ts: seq<Tree>, i: nat, x: string)
    requires i < |ts| && x in Preorder(ts[i]) && x !in PreorderAll(ts[..i])
    ensures x in PreorderAll(ts) && FindAll(ts, x) == Find(ts[i], x)
    decreases ts
  {
    if i == 0 {
    } else {
      assert ts[..i][1..] == ts[1..][..i - 1];
      FindAllAt(ts[1..], i - 1, x);
    }
  }

  lemma {:induction false} GrowAllAppend(a: seq<Tree>, b: seq<Tree>, parent: string, child: string)
    ensures GrowAll(a + b, parent, child) == GrowAll(a, parent, child) + GrowAll(b, parent, child)
    decreases a
  {
    if a == [] {
      assert a + b == b;
    } else {
      assert (a + b)[1..] == a[1..] + b;
      GrowAllAppend(a[1..], b, parent, child);
    }
  }

  lemma GrowAllAt(ts: seq<Tree>, i: nat, parent: string, child: string)
    requires i < |ts| && parent !in PreorderAll(ts[..i]) && parent !in PreorderAll(ts[i + 1..])
    ensures GrowAll(ts, parent, child) == ts[..i] + [Grow(ts[i], parent, child)] + ts[i + 1..]
  {
    assert ts == ts[..i] + ([ts[i]] + ts[i + 1..]);
    GrowAllAppend(ts[..i], [ts[i]] + ts[i + 1..], parent, child);
    GrowAllAppend([ts[i]], ts[i + 1..], parent, child);
    GrowAllAbsent(ts[..i], parent, child);
    GrowAllAbsent(ts[i + 1..], parent, child);
  }

  lemma {:induction false} RemoveAllAppend(a: seq<Tree>, b: seq<Tree>, x: string)
    ensures RemoveAll(a + b, x) == RemoveAll(a, x) + RemoveAll(b, x)
    decreases a
  {
    if a == [] {
      assert a + b == b;
    } else {
      assert (a + b)[1..] == a[1..] + b;
      RemoveAllAppend(a[1..], b, x);
    }
  }

  lemma RemoveAllAt(ts: seq<Tree>, i: nat, x: string)
    requires i < |ts| && x !in PreorderAll(ts[..i]) && x !in PreorderAll(ts[i + 1..])
    ensures RemoveAll(ts, x) == ts[..i] + (if ts[i].name == x then [] else [Remove(ts[i], x)]) + ts[i + 1..]
  {
    assert ts == ts[..i] + ([ts[i]] + ts[i + 1..]);
    RemoveAllAppend(ts[..i], [ts[i]] + ts[i + 1..], x);
    RemoveAllAppend([ts[i]], ts[i + 1..], x);
    RemoveAllAbsent(ts[..i], x);
    RemoveAllAbsent(ts[i + 1..], x);
    RemoveOne(ts[i], x);
    RegroupTrees(ts[..i], RemoveAll([ts[i]], x), ts[i + 1..]);
  }

  lemma RemoveOne(t: Tree, x: string)
    ensures RemoveAll([t], x) == if t.name == x then [] else [Remove(t, x)]
  {
    assert [t][1..] == [];
  }

  lemma RegroupTrees(a: seq<Tree>, b: seq<Tree>, c: seq<Tree>)
    ensures a + (b + c) == a + b + c
  {
  }

  /** Where `x` lies below child `i`, both edits and the search stay inside that child. */
  lemma EditsInside(t: Tree, i: nat, x: string, child: string)
    requires NoDup(Preorder(t)) && i < |t.kids| && x in Preorder(t.kids[i])
    ensures x != t.name && x in Preorder(t) && x !in Before(t, i) && x !in PreorderAll(t.kids[i + 1..])
    ensures Find(t, x) == Find(t.kids[i], x)
    ensures Grow(t, x, child) == Node(t.name, t.kids[..i] + [Grow(t.kids[i], x, child)] + t.kids[i + 1..])
    ensures Remove(t, x) == Node(t.name,
      t.kids[..i] + (if t.kids[i].name == x then [] else [Remove(t.kids[i], x)]) + t.kids[i + 1..])
  {
    ChildApart(t, i);
    assert x !in Before(t, i);
    FindAllAt(t.kids, i, x);
    GrowAllAt(t.kids, i, x, child);
    RemoveAllAt(t.kids, i, x);
  }

  // ----- what the edits mean ---------------------------------------------------------------

  /** The preorder of a node whose child `i` is replaced by a forest. */
  lemma PreorderWith(name: string, a: seq<Tree>, mid: seq<Tree>, b: seq<Tree>)
    ensures Preorder(Node(name, a + mid + b)) == [name] + PreorderAll(a) + PreorderAll(mid) + PreorderAll(b)
  {
    PreorderAllAppend(a + mid, b);
    PreorderAllAppend(a, mid);
    Regroup([name], PreorderAll(a) + PreorderAll(mid), PreorderAll(b));
    Regroup([name], PreorderAll(a), PreorderAll(mid));
  }

  lemma PreorderOne(t: Tree)
    ensures PreorderAll([t]) == Preorder(t)
  {
    assert [t][1..] == [];
  }

  lemma Sandwich(a: seq<string>, a1: seq<string>, m: seq<string>, b1: seq<string>, b: seq<string>)
    ensures a + (a1 + m + b1) + b == (a + a1) + m + (b1 + b)
  {
  }

  /**
   * Every service `x` cuts the preorder in three: what comes before it, its own subtree, and the rest.
   * Spawning under `x` puts the new name right after the subtree; killing `x` takes the subtree out;
   * neither disturbs the rest.
   */
  lemma {:induction false} EditsCut(t: Tree, x: string, child: string) returns (a: seq<string>, b: seq<string>)
    requires NoDup(Preorder(t)) && x in Preorder(t)
    ensures x !in a && Preorder(t) == a + Preorder(Find(t, x)) + b
    ensures Preorder(Grow(t, x, child)) == a + (Preorder(Find(t, x)) + [child]) + b
    ensures x != t.name ==> Preorder(Remove(t, x)) == a + b
    ensures a == [] <==> x == t.name
    decreases t
  {
    if x == t.name {
      a, b := [], [];
      assert Preorder(t) == [] + Preorder(t) + [];
      PreorderAllAppend(t.kids, [Node(child, [])]);
      PreorderOne(Node(child, []));
      Regroup([t.name], PreorderAll(t.kids), [child]);
      assert Preorder(Grow(t, x, child)) == [] + (Preorder(t) + [child]) + [];
    } else {
      var i := ChildWith(t.kids, x);
      EditsInside(t, i, x, child);
      ChildApart(t, i);
      PreorderAt(t, i);
      var a1, b1 := EditsCut(t.kids[i], x, child);
      var rest := PreorderAll(t.kids[i + 1..]);
      a, b := Before(t, i) + a1, b1 + rest;
      Sandwich(Before(t, i), a1, Preorder(Find(t, x)), b1, rest);
      Sandwich(Before(t, i), a1, Preorder(Find(t, x)) + [child], b1, rest);
      PreorderWith(t.name, t.kids[..i], [Grow(t.kids[i], x, child)], t.kids[i + 1..]);
      PreorderOne(Grow(t.kids[i], x, child));
      CutOut(t, i, x, a1, b1);
    }
  }

  /** The killing half of the step from child to parent. */
  lemma CutOut(t: Tree, i: nat, x: string, a1: seq<string>, b1: seq<string>)
    requires NoDup(Preorder(t)) && i < |t.kids| && x in Preorder(t.kids[i])
    requires x != t.kids[i].name ==> Preorder(Remove(t.kids[i], x)) == a1 + b1
    requires x == t.kids[i].name ==> a1 == [] && b1 == []
    ensures Preorder(Remove(t, x)) == (Before(t, i) + a1) + (b1 + PreorderAll(t.kids[i + 1..]))
  {
    EditsInside(t, i, x, "");
    var rest := PreorderAll(t.kids[i + 1..]);
    if x == t.kids[i].name {
      PreorderWith(t.name, t.kids[..i], [], t.kids[i + 1..]);
    } else {
      PreorderWith(t.name, t.kids[..i], [Remove(t.kids[i], x)], t.kids[i + 1..]);
      PreorderOne(Remove(t.kids[i], x));
      Sandwich(Before(t, i), a1, [], b1, rest);
    }
  }

  /** The new service is the last of its parent's own children. */
  lemma {:induction false} GrowAt(t: Tree, parent: string, child: string)
    requires NoDup(Preorder(t)) && parent in Preorder(t) && child !in Preorder(t)
    ensures var t' := Grow(t, parent, child);
      && parent in Preorder(t') && Find(t', parent).kids == Find(t, parent).kids + [Node(child, [])]
    decreases t
  {
    if t.name != parent {
      var i := ChildWith(t.kids, parent);
      ChildApart(t, i);
      EditsInside(t, i, parent, child);
      GrowAt(t.kids[i], parent, child);
      var kids := Grow(t, parent, child).kids;
      assert kids[i] == Grow(t.kids[i], parent, child) && kids[..i] == t.kids[..i];
      FindAllAt(kids, i, parent);
    }
  }

  // ----- what the edits keep ---------------------------------------------------------------

  lemma {:induction false} SizeCounts(t: Tree)
    ensures Size(t) == |Preorder(t)|
    decreases t
  {
    SizeAllCounts(t.kids);
  }

  lemma {:induction false} SizeAllCounts(ts: seq<Tree>)
    ensures SizeAll(ts) == |PreorderAll(ts)|
    decreases ts
  {
    if ts == [] {
    } else {
      SizeCounts(ts[0]);
      SizeAllCounts(ts[1..]);
    }
  }

  /** Killing takes out as many services as the subtree has, and exactly those names. */
  lemma KillKeepsDistinct(t: Tree, x: string)
    requires NoDup(Preorder(t)) && x in Preorder(t) && x != t.name
    ensures NoDup(Preorder(Remove(t, x))) && Remove(t, x).name == t.name
    ensures Names(Preorder(Remove(t, x))) == Names(Preorder(t)) - Names(Preorder(Find(t, x)))
    ensures Size(Remove(t, x)) == Size(t) - Size(Find(t, x))
  {
    var a, b := EditsCut(t, x, "");
    NoDupParts(a, Preorder(Find(t, x)), b);
    SizeCounts(t);
    SizeCounts(Remove(t, x));
    SizeCounts(Find(t, x));
  }

  lemma SpawnKeepsDistinct(t: Tree, x: string, child: string)
    requires NoDup(Preorder(t)) && x in Preorder(t) && child !in Preorder(t)
    ensures NoDup(Preorder(Grow(t, x, child))) && Grow(t, x, child).name == t.name
    ensures Names(Preorder(Grow(t, x, child))) == Names(Preorder(t)) + {child}
  {
    var a, b := EditsCut(t, x, child);
    var m := Preorder(Find(t, x));
    assert Names(a + (m + [child]) + b) == Names(a + m + b) + {child};
    InsertDistinct(a + m, child, b);
    Regroup(a, m, [child]);
  }

  lemma InsertDistinct(a: seq<string>, x: string, b: seq<string>)
    requires NoDup(a + b) && x !in a + b
    ensures NoDup(a + [x] + b)
  {
    var s := a + [x] + b;
    forall i, j | 0 <= i < j < |s| ensures s[i] != s[j] {
      var i', j' := if i <= |a| then i else i - 1, if j <= |a| then j else j - 1;
      assert i == |a| || s[i] == (a + b)[i'];
      assert j == |a| || s[j] == (a + b)[j'];
    }
  }

  /** Killing a service right after it was spawned restores the tree. */
  lemma {:induction false} KillUndoesSpawn(t: Tree, parent: string, child: string)
    requires child !in Preorder(t)
    ensures Remove(Grow(t, parent, child), child) == t
    decreases t
  {
    if t.name == parent {
      RemoveAllAbsent(t.kids, child);
      RemoveAllLast(t.kids, child);
    } else {
      KillUndoesSpawnAll(t.kids, parent, child);
    }
  }

  lemma {:induction false} KillUndoesSpawnAll(ts: seq<Tree>, parent: string, child: string)
    requires child !in PreorderAll(ts)
    ensures RemoveAll(GrowAll(ts, parent, child), child) == ts
    decreases ts
  {
    if ts == [] {
    } else {
      assert ts[0].name in Preorder(ts[0]);
      KillUndoesSpawn(ts[0], parent, child);
      KillUndoesSpawnAll(ts[1..], parent, child);
    }
  }

  lemma {:induction false} RemoveAllLast(ts: seq<Tree>, child: string)
    requires RemoveAll(ts, child) == ts
    ensures RemoveAll(ts + [Node(child, [])], child) == ts
    decreases ts
  {
    if ts == [] {
      assert ts + [Node(child, [])] == [Node(child, [])];
    } else {
      assert (ts + [Node(child, [])])[1..] == ts[1..] + [Node(child, [])];
      RemoveAllShrinks(ts[1..], child);
      RemoveAllLast(ts[1..], child);
    }
  }

  lemma {:induction false} RemoveAllShrinks(ts: seq<Tree>, child: string)
    ensures |RemoveAll(ts, child)| <= |ts|
    decreases ts
  {
    if ts == [] {
    } else {
      RemoveAllShrinks(ts[1..], child);
    }
  }

  // ----- orders ---------------------------------------------------------------------------

  /** The beginning of `s` up to and including `x`; all of `s` where `x` is missing. */
  function Until(s: seq<string>, x: string): seq<string> {
    if s == [] then [] else if s[0] == x then [x] else [s[0]] + Until(s[1..], x)
  }

  /** The first `n` of `s` are those up to and including the first `x`; all of them where `x` is missing. */
  ghost predicate StopsAt(s: seq<string>, n: nat, x: string) {
    n <= |s| && if x in s then n > 0 && s[n - 1] == x && x !in s[..n - 1] else n == |s|
  }

  lemma {:induction false} UntilStops(s: seq<string>, x: string) returns (n: nat)
    ensures StopsAt(s, n, x) && Until(s, x) == s[..n]
    decreases s
  {
    if s == [] {
      n := 0;
    } else if s[0] == x {
      n := 1;
    } else {
      var k := UntilStops(s[1..], x);
      n := k + 1;
      assert s == [s[0]] + s[1..] && s[..n] == [s[0]] + s[1..][..k];
      if x in s {
        assert s[..n - 1] == [s[0]] + s[1..][..k - 1];
      }
    }
  }

  lemma {:induction false} UntilAppend(a: seq<string>, b: seq<string>, x: string)
    requires x !in a
    ensures Until(a + b, x) == a + Until(b, x)
    decreases a
  {
    if a == [] {
      assert a + b == b;
    } else {
      assert (a + b)[1..] == a[1..] + b;
      UntilAppend(a[1..], b, x);
    }
  }

  lemma {:induction false} UntilPrefix(a: seq<string>, b: seq<string>, x: string)
    requires x in a
    ensures Until(a + b, x) == Until(a, x)
    decreases a
  {
    assert (a + b)[0] == a[0];
    if a[0] != x {
      assert (a + b)[1..] == a[1..] + b;
      UntilPrefix(a[1..], b, x);
    }
  }

  lemma UntilAbsent(s: seq<string>, x: string)
    requires x !in s
    ensures Until(s, x) == s
  {
    UntilAppend(s, [], x);
    assert s + [] == s;
  }

  /** A search that has passed `i` children and finds `x` below the next one. */
  lemma UntilAt(t: Tree, i: nat, x: string)
    requires i < |t.kids| && x !in Before(t, i) && x in Preorder(t.kids[i])
    ensures Until(Preorder(t), x) == Before(t, i) + Until(Preorder(t.kids[i]), x)
  {
    PreorderAt(t, i);
    var m, rest := Preorder(t.kids[i]), PreorderAll(t.kids[i + 1..]);
    UntilAppend(Before(t, i) + [], m + rest, x);
    Regroup(Before(t, i), m, rest);
    assert Before(t, i) + [] == Before(t, i);
    UntilPrefix(m, rest, x);
  }

  /** Children before their parent: the order in which a subtree is reaped. */
  function Postorder(t: Tree): seq<string>
    decreases t
  {
    PostorderAll(t.kids) + [t.name]
  }

  function PostorderAll(ts: seq<Tree>): seq<string>
    decreases ts
  {
    if ts == [] then [] else Postorder(ts[0]) + PostorderAll(ts[1..])
  }

  lemma {:induction false} PostorderNext(ts: seq<Tree>, i: nat)
    requires i < |ts|
    ensures PostorderAll(ts[..i + 1]) == PostorderAll(ts[..i]) + Postorder(ts[i])
    ensures PreorderAll(ts[..i + 1]) == PreorderAll(ts[..i]) + Preorder(ts[i])
    ensures SizeAll(ts[..i + 1]) == SizeAll(ts[..i]) + Size(ts[i])
    decreases i
  {
    assert ts[..i + 1][1..] == ts[1..][..i];
    if i == 0 {
    } else {
      assert ts[..i][1..] == ts[1..][..i - 1];
      PostorderNext(ts[1..], i - 1);
      Regroup(Postorder(ts[0]), PostorderAll(ts[1..][..i - 1]), Postorder(ts[i]));
      Regroup(Preorder(ts[0]), PreorderAll(ts[1..][..i - 1]), Preorder(ts[i]));
    }
  }

  /** `x` comes before `y`. */
  ghost predicate Precedes(s: seq<string>, x: string, y: string) {
    exists i, j | 0 <= i < j < |s| :: s[i] == x && s[j] == y
  }

  lemma PrecedesAcross(a: seq<string>, b: seq<string>, x: string, y: string)
    requires x in a && y in b
    ensures Precedes(a + b, x, y)
  {
    var i :| 0 <= i < |a| && a[i] == x;
    var j :| 0 <= j < |b| && b[j] == y;
    assert (a + b)[i] == x && (a + b)[|a| + j] == y;
  }

  lemma PrecedesInside(a: seq<string>, b: seq<string>, c: seq<string>, x: string, y: string)
    requires Precedes(b, x, y)
    ensures Precedes(a + b + c, x, y)
  {
    var i, j :| 0 <= i < j < |b| && b[i] == x && b[j] == y;
    assert (a + b + c)[|a| + i] == x && (a + b + c)[|a| + j] == y;
  }

  lemma PrecedesOnce(s: seq<string>, x: string, y: string)
    requires NoDup(s) && Precedes(s, x, y)
    ensures !Precedes(s, y, x)
  {
  }

  lemma {:induction false} PostorderAllAt(ts: seq<Tree>, i: nat)
    requires i < |ts|
    ensures PostorderAll(ts) == PostorderAll(ts[..i]) + Postorder(ts[i]) + PostorderAll(ts[i + 1..])
    decreases i
  {
    if i == 0 {
    } else {
      PostorderAllAt(ts[1..], i - 1);
      assert ts[1..][..i - 1] == ts[..i][1..] && ts[1..][i..] == ts[i + 1..];
      var a, b, c := PostorderAll(ts[..i][1..]), Postorder(ts[i]), PostorderAll(ts[i + 1..]);
      Regroup(Postorder(ts[0]), a + b, c);
      Regroup(Postorder(ts[0]), a, b);
    }
  }

  lemma SameMembers(s: seq<string>, r: seq<string>)
    requires multiset(s) == multiset(r)
    ensures forall n :: n in s <==> n in r
  {
    forall n ensures n in s <==> n in r {
      assert n in s <==> n in multiset(s);
      assert n in r <==> n in multiset(r);
    }
  }

  /** What is reaped within one child is reaped in the same order within the whole. */
  lemma PrecedesBelow(t: Tree, i: nat, x: string, y: string)
    requires i < |t.kids| && Precedes(Postorder(t.kids[i]), x, y)
    ensures Precedes(Postorder(t), x, y)
  {
    PostorderAllAt(t.kids, i);
    PrecedesInside(PostorderAll(t.kids[..i]), Postorder(t.kids[i]), PostorderAll(t.kids[i + 1..]), x, y);
    PrecedesInside([], PostorderAll(t.kids), [t.name], x, y);
    assert [] + PostorderAll(t.kids) + [t.name] == Postorder(t);
  }

  lemma PostorderAmong(t: Tree, i: nat, j: nat, x: string, y: string)
    requires i < j < |t.kids| && x in Postorder(t.kids[i]) && y in Postorder(t.kids[j])
    ensures Precedes(Postorder(t), x, y)
  {
    PostorderAllAt(t.kids, j);
    PostorderAllAt(t.kids[..j], i);
    var a, b, c := PostorderAll(t.kids[..j]), Postorder(t.kids[j]), PostorderAll(t.kids[j + 1..]);
    assert x in a;
    PrecedesAcross(a, b, x, y);
    PrecedesInside([], a + b, c + [t.name], x, y);
    assert [] + (a + b) + (c + [t.name]) == (a + b + c) + [t.name];
  }

  lemma PreorderAmong(t: Tree, i: nat, j: nat, x: string, y: string)
    requires i < j < |t.kids| && x in Preorder(t.kids[i]) && y in Preorder(t.kids[j])
    ensures Precedes(Preorder(t), x, y)
  {
    PreorderAt(t, j);
    PreorderAllAt(t.kids[..j], i);
    assert x in Before(t, j);
    PrecedesAcross(Before(t, j), Preorder(t.kids[j]), x, y);
    PrecedesInside([], Before(t, j) + Preorder(t.kids[j]), PreorderAll(t.kids[j + 1..]), x, y);
    assert [] + (Before(t, j) + Preorder(t.kids[j])) + PreorderAll(t.kids[j + 1..]) == Preorder(t);
  }

  lemma PrecedesAmong(t: Tree, i: nat, j: nat, x: string, y: string)
    requires i < j < |t.kids| && x in Preorder(t.kids[i]) && y in Preorder(t.kids[j])
    ensures Precedes(Postorder(t), x, y) && Precedes(Preorder(t), x, y)
  {
    PostorderCovers(t.kids[i]);
    SameMembers(Postorder(t.kids[i]), Preorder(t.kids[i]));
    PostorderCovers(t.kids[j]);
    SameMembers(Postorder(t.kids[j]), Preorder(t.kids[j]));
    PostorderAmong(t, i, j, x, y);
    PreorderAmong(t, i, j, x, y);
  }

  /** The order of reaping: a service after everyone below it, and of two services of which neither is
      below the other first the one that comes first in preorder. */
  lemma {:induction false} ReapedOrder(t: Tree, x: string, y: string)
    requires NoDup(Preorder(t)) && x in Preorder(t) && y in Preorder(t) && x != y
    ensures x in Preorder(Find(t, y)) ==> Precedes(Postorder(t), x, y)
    ensures x !in Preorder(Find(t, y)) && y !in Preorder(Find(t, x)) && Precedes(Preorder(t), x, y) ==>
      Precedes(Postorder(t), x, y)
    decreases t
  {
    if y == t.name {
      PostorderAllCovers(t.kids);
      SameMembers(PostorderAll(t.kids), PreorderAll(t.kids));
      PrecedesAcross(PostorderAll(t.kids), [t.name], x, y);
    } else if x == t.name {
      var j := ChildWith(t.kids, y);
      ChildApart(t, j);
      BelowInside(t, j, y, x);
    } else {
      var i := ChildWith(t.kids, x);
      var j := ChildWith(t.kids, y);
      EditsInside(t, i, x, "");
      EditsInside(t, j, y, "");
      if i == j {
        ReapedInside(t, i, x, y);
      } else {
        SiblingApart(t, i, j);
        BelowInside(t, j, y, x);
        if i < j {
          PrecedesAmong(t, i, j, x, y);
        } else {
          PrecedesAmong(t, j, i, y, x);
          PrecedesOnce(Preorder(t), y, x);
        }
      }
    }
  }

  lemma {:induction false} ReapedInside(t: Tree, i: nat, x: string, y: string)
    requires NoDup(Preorder(t)) && x != y && i < |t.kids| && x in Preorder(t.kids[i]) && y in Preorder(t.kids[i])
    ensures x in Preorder(Find(t.kids[i], y)) ==> Precedes(Postorder(t), x, y)
    ensures x !in Preorder(Find(t.kids[i], y)) && y !in Preorder(Find(t.kids[i], x)) && Precedes(Preorder(t), x, y) ==>
      Precedes(Postorder(t), x, y)
    decreases t, 0
  {
    ChildApart(t, i);
    ReapedOrder(t.kids[i], x, y);
    if !Precedes(Preorder(t.kids[i]), x, y) && Precedes(Preorder(t), x, y) {
      OneFirst(Preorder(t.kids[i]), x, y);
      PreorderAt(t, i);
      PrecedesInside(Before(t, i), Preorder(t.kids[i]), PreorderAll(t.kids[i + 1..]), y, x);
      PrecedesOnce(Preorder(t), x, y);
    }
    if Precedes(Postorder(t.kids[i]), x, y) {
      PrecedesBelow(t, i, x, y);
    }
  }

  lemma OneFirst(s: seq<string>, x: string, y: string)
    requires x in s && y in s && x != y
    ensures Precedes(s, x, y) || Precedes(s, y, x)
  {
    var i :| 0 <= i < |s| && s[i] == x;
    var j :| 0 <= j < |s| && s[j] == y;
    assert i < j ==> Precedes(s, x, y);
  }

  /** Nobody is below a service in another child's subtree. */
  lemma BelowInside(t: Tree, j: nat, y: string, x: string)
    requires NoDup(Preorder(t)) && j < |t.kids| && y in Preorder(t.kids[j]) && x !in Preorder(t.kids[j])
    ensures y in Preorder(t) && x !in Preorder(Find(t, y))
  {
    EditsInside(t, j, y, "");
    ChildApart(t, j);
    var a, b := EditsCut(t.kids[j], y, "");
  }

  /** Reaping in postorder reaps every process of the subtree once. */
  lemma {:induction false} PostorderCovers(t: Tree)
    ensures multiset(Postorder(t)) == multiset(Preorder(t))
    decreases t
  {
    PostorderAllCovers(t.kids);
  }

  lemma {:induction false} PostorderAllCovers(ts: seq<Tree>)
    ensures multiset(PostorderAll(ts)) == multiset(PreorderAll(ts))
    decreases ts
  {
    if ts == [] {
    } else {
      PostorderCovers(ts[0]);
      PostorderAllCovers(ts[1..]);
    }
  }
}
