/** The tree of live services and its preorder, the order in which a command visits it. */
module Trees {
  datatype Tree = Node(name: string, kids: seq<Tree>)

  function Preorder(t: Tree): seq<string>
    decreases t
  {
    [t.name] + PreorderAll(t.kids)
  }

  function PreorderAll(ts: seq<Tree>): seq<string>
    decreases ts
  {
    if ts == [] then [] else Preorder(ts[0]) + PreorderAll(ts[1..])
  }

  /** The number of services in the tree. */
  function Size(t: Tree): nat
    decreases t
  {
    1 + SizeAll(t.kids)
  }

  function SizeAll(ts: seq<Tree>): nat
    decreases ts
  {
    if ts == [] then 0 else Size(ts[0]) + SizeAll(ts[1..])
  }

  ghost predicate NoDup(s: seq<string>) {
    forall i, j :: 0 <= i < j < |s| ==> s[i] != s[j]
  }
}
