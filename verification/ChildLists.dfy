/** The child list of every live process, and how edits of single lists edit the tree. */
module ChildLists {
  import opened Trees
  import opened TreeEdits

  type Lists = map<string, seq<string>>

  /** The child lists below `t` spell out `t`. */
  ghost predicate Holds(kids: Lists, t: Tree)
    decreases t
  {
    && t.name in kids && kids[t.name] == RootNames(t.kids)
    && forall i | 0 <= i < |t.kids| :: Holds(kids, t.kids[i])
  }

  /** The two collections of lists agree on `names`. */
  ghost predicate Agree(k: Lists, k': Lists, names: seq<string>) {
    forall n | n in names && n in k :: n in k' && k'[n] == k[n]
  }

  ghost predicate HoldsAll(kids: Lists, ts: seq<Tree>) {
    forall i | 0 <= i < |ts| :: Holds(kids, ts[i])
  }

  /** `parent` has one more last child, which has none. */
  function Adopt(k: Lists, parent: string, child: string): Lists {
    (if parent in k then k[parent := k[parent] + [child]] else k)[child := []]
  }

  /** A child list after `deleteNode`. */
  function Without(s: seq<string>, x: string): seq<string> {
    if s == [] then [] else if s[0] == x then s[1..] else [s[0]] + Without(s[1..], x)
  }

  lemma {:induction false} WithoutAt(s: seq<string>, i: nat, x: string)
    requires i < |s| && s[i] == x && x !in s[..i]
    ensures Without(s, x) == s[..i] + s[i + 1..]
    decreases i
  {
    if i == 0 {
    } else {
      assert s[0] == s[..i][0] && s[..i][1..] == s[1..][..i - 1] && s[1..][i..] == s[i + 1..];
      WithoutAt(s[1..], i - 1, x);
    }
  }

  // ----- the lists and the tree -----------------------------------------------------------

  lemma {:induction false} HoldsElsewhere(k: Lists, k': Lists, t: Tree)
    requires Holds(k, t) && Agree(k, k', Preorder(t))
    ensures Holds(k', t)
    decreases t
  {
    assert t.name == Preorder(t)[0];
    forall i | 0 <= i < |t.kids| ensures Holds(k', t.kids[i]) {
      PreorderAt(t, i);
      HoldsElsewhere(k, k', t.kids[i]);
    }
  }

  lemma {:induction false} HoldsKeys(k: Lists, t: Tree)
    requires Holds(k, t)
    ensures forall n | n in Preorder(t) :: n in k
    decreases t
  {
    HoldsAllKeys(k, t.kids);
  }

  lemma {:induction false} HoldsAllKeys(k: Lists, ts: seq<Tree>)
    requires HoldsAll(k, ts)
    ensures forall n | n in PreorderAll(ts) :: n in k
    decreases ts
  {
    if ts == [] {
    } else {
      HoldsKeys(k, ts[0]);
      HoldsAllKeys(k, ts[1..]);
    }
  }

  lemma RootNamesAppend(a: seq<Tree>, b: seq<Tree>)
    ensures RootNames(a + b) == RootNames(a) + RootNames(b)
  {
  }

  /** A node holds when its list is right and each stretch of its children holds. */
  lemma HoldsParts(k: Lists, name: string, a: seq<Tree>, mid: seq<Tree>, b: seq<Tree>)
    requires name in k && k[name] == RootNames(a) + RootNames(mid) + RootNames(b)
    requires HoldsAll(k, a) && HoldsAll(k, mid) && HoldsAll(k, b)
    ensures Holds(k, Node(name, a + mid + b))
  {
    RootNamesAppend(a + mid, b);
    RootNamesAppend(a, mid);
    var ts := a + mid + b;
    forall j | 0 <= j < |ts| ensures Holds(k, ts[j]) {
      if j < |a| {
        assert ts[j] == a[j];
      } else if j < |a| + |mid| {
        assert ts[j] == mid[j - |a|];
      } else {
        assert ts[j] == b[j - |a| - |mid|];
      }
    }
  }

  /** What happens in the subtree of child `i` and in the parent's own list leaves its siblings
      alone. */
  lemma SiblingsHold(k: Lists, k': Lists, t: Tree, i: nat)
    requires Holds(k, t) && NoDup(Preorder(t)) && i < |t.kids|
    requires forall n | n in k && n != t.name && n !in Preorder(t.kids[i]) :: n in k' && k'[n] == k[n]
    ensures HoldsAll(k', t.kids[..i]) && HoldsAll(k', t.kids[i + 1..])
  {
    forall j | 0 <= j < |t.kids| && j != i ensures Holds(k', t.kids[j]) {
      SiblingApart(t, i, j);
      assert Holds(k, t.kids[j]);
      HoldsElsewhere(k, k', t.kids[j]);
    }
  }

  /** A change inside one child's subtree replaces that child. */
  lemma ChildReplaced(k: Lists, k': Lists, t: Tree, i: nat, sub: Tree)
    requires Holds(k, t) && NoDup(Preorder(t)) && i < |t.kids|
    requires Holds(k', sub) && sub.name == t.kids[i].name
    requires t.name in k' && k'[t.name] == k[t.name]
    requires forall n | n in k && n != t.name && n !in Preorder(t.kids[i]) :: n in k' && k'[n] == k[n]
    ensures Holds(k', Node(t.name, t.kids[..i] + [sub] + t.kids[i + 1..]))
  {
    SiblingsHold(k, k', t, i);
    assert RootNames(t.kids) == RootNames(t.kids[..i]) + RootNames([sub]) + RootNames(t.kids[i + 1..]);
    HoldsParts(k', t.name, t.kids[..i], [sub], t.kids[i + 1..]);
  }

  /** Adding the child to the one list below `t` that is `parent`'s grows the tree. */
  lemma {:induction false} AdoptGrows(k: Lists, t: Tree, parent: string, child: string)
    requires Holds(k, t) && NoDup(Preorder(t)) && parent in Preorder(t) && child !in k
    ensures parent in k && Adopt(k, parent, child) == k[parent := k[parent] + [child]][child := []]
    ensures Holds(Adopt(k, parent, child), Grow(t, parent, child))
    decreases t
  {
    HoldsKeys(k, t);
    if t.name == parent {
      AdoptOwn(k, t, child);
    } else {
      var i := ChildWith(t.kids, parent);
      ChildApart(t, i);
      AdoptGrows(k, t.kids[i], parent, child);
      EditsInside(t, i, parent, child);
      ChildReplaced(k, Adopt(k, parent, child), t, i, Grow(t.kids[i], parent, child));
    }
  }

  lemma AdoptOwn(k: Lists, t: Tree, child: string)
    requires Holds(k, t) && NoDup(Preorder(t)) && child !in k
    ensures Holds(Adopt(k, t.name, child), Grow(t, t.name, child))
  {
    HoldsKeys(k, t);
    var k' := Adopt(k, t.name, child);
    forall j | 0 <= j < |t.kids| ensures Holds(k', t.kids[j]) {
      ChildApart(t, j);
      HoldsElsewhere(k, k', t.kids[j]);
    }
    HoldsParts(k', t.name, t.kids, [Node(child, [])], []);
    assert t.kids + [Node(child, [])] + [] == t.kids + [Node(child, [])];
  }

  /** The list of a parent whose child `i` has died, once `deleteNode` has run. */
  lemma DeleteShrinks(k: Lists, k': Lists, t: Tree, i: nat)
    requires Holds(k, t) && NoDup(Preorder(t)) && i < |t.kids|
    requires k' == k - Names(Preorder(t.kids[i]))
    ensures t.name in k' && k'[t.name] == k[t.name]
    ensures Holds(k'[t.name := Without(k[t.name], t.kids[i].name)], Remove(t, t.kids[i].name))
  {
    var x := t.kids[i].name;
    ChildApart(t, i);
    WithoutRoot(t, i);
    EditsInside(t, i, x, "");
    var k'' := k'[t.name := Without(k[t.name], x)];
    SiblingsHold(k, k'', t, i);
    HoldsParts(k'', t.name, t.kids[..i], [], t.kids[i + 1..]);
  }

  lemma WithoutRoot(t: Tree, i: nat)
    requires NoDup(Preorder(t)) && i < |t.kids|
    ensures Without(RootNames(t.kids), t.kids[i].name) == RootNames(t.kids[..i]) + RootNames(t.kids[i + 1..])
  {
    var x := t.kids[i].name;
    forall j | 0 <= j < i ensures RootNames(t.kids)[j] != x {
      SiblingApart(t, i, j);
      assert t.kids[j].name in Preorder(t.kids[j]) && x in Preorder(t.kids[i]);
    }
    WithoutAt(RootNames(t.kids), i, x);
  }

  /** A death strictly below child `i` leaves the parent's own list alone. */
  lemma DeeperShrinks(k: Lists, k': Lists, t: Tree, i: nat, x: string)
    requires Holds(k, t) && NoDup(Preorder(t)) && i < |t.kids|
    requires x in Preorder(t.kids[i]) && x != t.kids[i].name
    requires Holds(k', Remove(t.kids[i], x))
    requires forall n | n in k && n !in Preorder(t.kids[i]) :: n in k' && k'[n] == k[n]
    ensures Holds(k', Remove(t, x))
  {
    ChildApart(t, i);
    EditsInside(t, i, x, "");
    ChildReplaced(k, k', t, i, Remove(t.kids[i], x));
  }

  // ----- the lists of a tree --------------------------------------------------------------

  /** The names of a service's own children. */
  function Children(t: Tree, n: string): seq<string>
    requires n in Preorder(t)
  {
    RootNames(Find(t, n).kids)
  }

  /** Every service of the tree with its child list. */
  function ListsOf(t: Tree): Lists { map n | n in Names(Preorder(t)) :: Children(t, n) }

  lemma {:induction false} HoldsFinds(k: Lists, t: Tree, n: string)
    requires Holds(k, t) && n in Preorder(t)
    ensures n in k && k[n] == Children(t, n)
    decreases t
  {
    if n != t.name {
      var i := ChildWith(t.kids, n);
      FindAllAt(t.kids, i, n);
      HoldsFinds(k, t.kids[i], n);
    }
  }

  lemma {:induction false} FoundHolds(k: Lists, t: Tree)
    requires NoDup(Preorder(t)) && forall n | n in Preorder(t) :: n in k && k[n] == Children(t, n)
    ensures Holds(k, t)
    decreases t
  {
    assert t.name == Preorder(t)[0];
    forall i | 0 <= i < |t.kids| ensures Holds(k, t.kids[i]) {
      ChildApart(t, i);
      forall n | n in Preorder(t.kids[i]) ensures n in k && k[n] == Children(t.kids[i], n) {
        EditsInside(t, i, n, "");
      }
      FoundHolds(k, t.kids[i]);
    }
  }

  /** Lists spell out a tree of distinct names if and only if each is its service's. */
  lemma HoldsIff(k: Lists, t: Tree)
    requires NoDup(Preorder(t))
    ensures Holds(k, t) <==> forall n | n in Preorder(t) :: n in k && k[n] == Children(t, n)
  {
    if Holds(k, t) {
      forall n | n in Preorder(t) ensures n in k && k[n] == Children(t, n) {
        HoldsFinds(k, t, n);
      }
    } else if forall n | n in Preorder(t) :: n in k && k[n] == Children(t, n) {
      FoundHolds(k, t);
    }
  }

  /** A tree has one collection of lists. */
  lemma HoldsIsListsOf(k: Lists, t: Tree)
    requires NoDup(Preorder(t)) && Holds(k, t) && k.Keys == Names(Preorder(t))
    ensures k == ListsOf(t)
  {
    HoldsIff(k, t);
  }

  lemma ListsOfHolds(t: Tree)
    requires NoDup(Preorder(t))
    ensures Holds(ListsOf(t), t) && ListsOf(t).Keys == Names(Preorder(t))
  {
    HoldsIff(ListsOf(t), t);
  }

  /** A spawn appends the child to its parent's own list, gives it an empty one, and changes no other
      list. */
  lemma GrowLists(t: Tree, parent: string, child: string)
    requires NoDup(Preorder(t)) && parent in Preorder(t) && child !in Preorder(t)
    ensures var k := ListsOf(t);
      ListsOf(Grow(t, parent, child)) == k[parent := k[parent] + [child]][child := []]
  {
    var k := ListsOf(t);
    ListsOfHolds(t);
    AdoptGrows(k, t, parent, child);
    SpawnKeepsDistinct(t, parent, child);
    HoldsIsListsOf(Adopt(k, parent, child), Grow(t, parent, child));
  }

  /** `k'` is `k` without the lists of `gone`, and with `x` taken off the one list it was on. */
  ghost predicate Unlinked(k: Lists, k': Lists, gone: set<string>, x: string) {
    exists p, i | p in k && p !in gone && 0 <= i < |k[p]| ::
      k[p][i] == x && k' == (k - gone)[p := k[p][..i] + k[p][i + 1..]]
  }

  /** The parent of `x`, and the place of `x` on its list. */
  lemma {:induction false} KillUnlinks(k: Lists, t: Tree, x: string) returns (p: string, i: nat)
    requires Holds(k, t) && NoDup(Preorder(t)) && x in Preorder(t) && x != t.name
    ensures p in Preorder(t) && p in k && p !in Preorder(Find(t, x)) && i < |k[p]| && k[p][i] == x
    ensures Holds((k - Names(Preorder(Find(t, x))))[p := k[p][..i] + k[p][i + 1..]], Remove(t, x))
    decreases t
  {
    i := ChildWith(t.kids, x);
    ChildApart(t, i);
    EditsInside(t, i, x, "");
    if x == t.kids[i].name {
      p := t.name;
      OwnChildUnlinked(k, t, i);
    } else {
      var j := i;
      p, i := KillUnlinks(k, t.kids[j], x);
      SubtreeInside(t.kids[j], x);
      DeeperUnlinked(k, t, j, x, p, k[p][..i] + k[p][i + 1..]);
    }
  }

  lemma OwnChildUnlinked(k: Lists, t: Tree, i: nat)
    requires Holds(k, t) && NoDup(Preorder(t)) && i < |t.kids|
    ensures |k[t.name]| == |t.kids| && k[t.name][i] == t.kids[i].name
    ensures var k' := (k - Names(Preorder(t.kids[i])))[t.name := k[t.name][..i] + k[t.name][i + 1..]];
      Holds(k', Remove(t, t.kids[i].name))
  {
    DeleteShrinks(k, k - Names(Preorder(t.kids[i])), t, i);
    WithoutRoot(t, i);
    assert RootNames(t.kids[..i]) == k[t.name][..i] && RootNames(t.kids[i + 1..]) == k[t.name][i + 1..];
  }

  lemma DeeperUnlinked(k: Lists, t: Tree, j: nat, x: string, p: string, rest: seq<string>)
    requires Holds(k, t) && NoDup(Preorder(t)) && j < |t.kids| && x in Preorder(t.kids[j]) && x != t.kids[j].name
    requires p in Preorder(t.kids[j]) && forall n | n in Preorder(Find(t.kids[j], x)) :: n in Preorder(t.kids[j])
    requires Holds((k - Names(Preorder(Find(t.kids[j], x))))[p := rest], Remove(t.kids[j], x))
    ensures Holds((k - Names(Preorder(Find(t.kids[j], x))))[p := rest], Remove(t, x))
  {
    DeeperShrinks(k, (k - Names(Preorder(Find(t.kids[j], x))))[p := rest], t, j, x);
  }

  lemma SubtreeInside(t: Tree, x: string)
    requires NoDup(Preorder(t)) && x in Preorder(t)
    ensures forall n | n in Preorder(Find(t, x)) :: n in Preorder(t)
  {
    var a, b := EditsCut(t, x, "");
  }

  /** Lists that spell out the tree after a kill, and are the same elsewhere. */
  lemma KillLists(k: Lists, k': Lists, t: Tree, x: string)
    requires Holds(k, t) && NoDup(Preorder(t)) && x in Preorder(t) && x != t.name
    requires Holds(k', Remove(t, x)) && k'.Keys == k.Keys - Names(Preorder(Find(t, x)))
    requires forall n | n in k && n !in Preorder(t) :: n in k' && k'[n] == k[n]
    ensures Unlinked(k, k', Names(Preorder(Find(t, x))), x)
  {
    var gone := Names(Preorder(Find(t, x)));
    var p, i := KillUnlinks(k, t, x);
    var k'' := (k - gone)[p := k[p][..i] + k[p][i + 1..]];
    KillKeepsDistinct(t, x);
    SameLists(k', k'', Remove(t, x));
    assert forall n | n in k' && n in Preorder(t) :: n in Names(Preorder(t)) - gone;
    SameEverywhere(k', k'', Preorder(t), Preorder(Remove(t, x)));
  }

  lemma SameEverywhere(k: Lists, k': Lists, before: seq<string>, after: seq<string>)
    requires k.Keys == k'.Keys && forall n | n in k && n in before :: n in after
    requires forall n | n in after :: n in k && n in k' && k'[n] == k[n]
    requires forall n | n in k && n !in before :: k'[n] == k[n]
    ensures k == k'
  {
  }

  lemma SameLists(k: Lists, k': Lists, t: Tree)
    requires Holds(k, t) && Holds(k', t)
    ensures forall n | n in Preorder(t) :: n in k && n in k' && k'[n] == k[n]
  {
    forall n | n in Preorder(t) ensures n in k && n in k' && k'[n] == k[n] {
      HoldsFinds(k, t, n);
      HoldsFinds(k', t, n);
    }
  }

  /** A kill leaves every list as it was but the one that held `x`, which loses that entry. */
  lemma RemoveLists(t: Tree, x: string)
    requires NoDup(Preorder(t)) && x in Preorder(t) && x != t.name
    ensures Unlinked(ListsOf(t), ListsOf(Remove(t, x)), Names(Preorder(Find(t, x))), x)
  {
    KillKeepsDistinct(t, x);
    ListsOfHolds(t);
    ListsOfHolds(Remove(t, x));
    KillLists(ListsOf(t), ListsOf(Remove(t, x)), t, x);
  }

  /** Lists spell out at most one tree from a given service on. */
  lemma {:induction false} OneTree(k: Lists, t: Tree, u: Tree)
    requires Holds(k, t) && Holds(k, u) && t.name == u.name
    ensures t == u
    decreases t
  {
    assert |RootNames(t.kids)| == |RootNames(u.kids)|;
    forall i | 0 <= i < |t.kids| ensures t.kids[i] == u.kids[i] {
      assert RootNames(t.kids)[i] == RootNames(u.kids)[i];
      OneTree(k, t.kids[i], u.kids[i]);
    }
    assert t.kids == u.kids;
  }

  // ----- the list itself ------------------------------------------------------------------

  class Link {
    const service: string
    var next: Link?

    constructor (service: string)
      ensures this.service == service && next == null
    {
      this.service, next := service, null;
    }
  }

  ghost function ServicesOf(links: seq<Link>): seq<string> {
    seq(|links|, i requires 0 <= i < |links| => links[i].service)
  }

  ghost function LinkAt(links: seq<Link>, i: nat): Link? { if i < |links| then links[i] else null }

  lemma ServicesCut(links: seq<Link>, i: nat)
    requires i < |links|
    ensures ServicesOf(links[..i] + links[i + 1..]) == ServicesOf(links)[..i] + ServicesOf(links)[i + 1..]
  {
  }

  /** One process's linked list of children. */
  class ChildList {
    var head: Link?
    ghost var spine: seq<Link>

    ghost predicate Valid()
      reads this, spine
    {
      && head == LinkAt(spine, 0)
      && (forall i, j | 0 <= i < j < |spine| :: spine[i] != spine[j])
      && forall i | 0 <= i < |spine| :: spine[i].next == LinkAt(spine, i + 1)
    }

    ghost function Contents(): seq<string>
      reads this
    {
      ServicesOf(spine)
    }

    constructor ()
      ensures Valid() && Contents() == [] && spine == []
    {
      head, spine := null, [];
    }

    /** `addChild`: walk to the last link and hang the new one there. */
    method AddChild(service: string)
      requires Valid()
      modifies this, spine
      ensures Valid() && Contents() == old(Contents()) + [service]
      ensures fresh(set l | l in spine && l !in old(spine))
    {
      var link := new Link(service);
      if head == null {
        head := link;
      } else {
        var current := head;
        ghost var i := 0;
        while current.next != null
          invariant 0 <= i < |spine| && current == spine[i]
          decreases |spine| - i
        {
          current := current.next;
          i := i + 1;
        }
        current.next := link;
      }
      spine := spine + [link];
    }

    /** The link after `current` drops out. */
    method UnlinkNext(current: Link, ghost i: nat)
      requires Valid() && i + 1 < |spine| && current == spine[i]
      modifies this`spine, current`next
      ensures Valid() && spine == old(spine[..i + 1]) + old(spine[i + 2..])
    {
      current.next := current.next.next;
      spine := spine[..i + 1] + spine[i + 2..];
    }

    /** `deleteNode`: unlink the first child of that name. The source reads the head without a
        check, so the list must not be empty. */
    method DeleteNode(service: string)
      requires Valid() && Contents() != []
      modifies this, spine
      ensures Valid() && Contents() == Without(old(Contents()), service)
      ensures forall l | l in spine :: l in old(spine)
    {
      if head.service == service {
        head := head.next;
        spine := spine[1..];
      } else {
        var current := head;
        ghost var i := 0;
        while current.next != null
          invariant 0 <= i < |spine| && current == spine[i]
          invariant forall j | 0 <= j <= i :: spine[j].service != service
          decreases |spine| - i
        {
          if current.next.service == service {
            WithoutAt(Contents(), i + 1, service);
            ServicesCut(spine, i + 1);
            UnlinkNext(current, i);
            return;
          }
          current := current.next;
          i := i + 1;
        }
        WithoutAbsent(Contents(), service);
      }
    }
  }

  /** `s'` is `s` without its first `x`; the same as `s` where there is none. */
  ghost predicate LosesFirst(s: seq<string>, s': seq<string>, x: string) {
    if x in s then exists i | 0 <= i < |s| && s[i] == x && x !in s[..i] :: s' == s[..i] + s[i + 1..] else s' == s
  }

  lemma {:induction false} FirstOf(s: seq<string>, x: string) returns (i: nat)
    requires x in s
    ensures i < |s| && s[i] == x && x !in s[..i]
    decreases s
  {
    if s[0] == x {
      i := 0;
    } else {
      var k := FirstOf(s[1..], x);
      i := k + 1;
      assert s[..i] == [s[0]] + s[1..][..k];
    }
  }

  lemma WithoutLoses(s: seq<string>, x: string)
    ensures LosesFirst(s, Without(s, x), x)
  {
    if x in s {
      var i := FirstOf(s, x);
      WithoutAt(s, i, x);
    } else {
      WithoutAbsent(s, x);
    }
  }

  lemma {:induction false} WithoutAbsent(s: seq<string>, x: string)
    requires x !in s
    ensures Without(s, x) == s
    decreases s
  {
    if s == [] {
    } else {
      WithoutAbsent(s[1..], x);
    }
  }
}
