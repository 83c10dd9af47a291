/** A directory tree as the tools see it: `readdir` gives the entries of a directory in some
    order, each with the kind `withFileTypes` reports. */
module FileTree {
  import opened Sequences

  datatype Node = File(bytes: string) | Link | Other | Dir(entries: seq<Entry>)

  datatype Entry = Entry(name: string, node: Node)

  /** The entry of a directory under a name. */
  function Named(entries: seq<Entry>, name: string): (found: Option<Node>)
    ensures found.Some? ==> exists k :: 0 <= k < |entries| && entries[k] == Entry(name, found.value)
    ensures found.None? ==> forall k :: 0 <= k < |entries| ==> entries[k].name != name
  {
    if entries == [] then None
    else if entries[0].name == name then Some(entries[0].node)
    else Named(entries[1..], name)
  }

  function Lookup(node: Node, names: seq<string>): Option<Node>
    decreases names
  {
    if names == [] then Some(node)
    else if !node.Dir? then None
    else
      var child := Named(node.entries, names[0]);
      if child.None? then None else Lookup(child.value, names[1..])
  }

  predicate GoodName(name: string)
  {
    name != "" && '/' !in name
  }

  /** What any file system keeps: names in a directory are distinct and are not paths. */
  ghost predicate WellFormed(node: Node)
  {
    node.Dir? ==>
      && (forall i, j :: 0 <= i < j < |node.entries| ==> node.entries[i].name != node.entries[j].name)
      && (forall k :: 0 <= k < |node.entries| ==> GoodName(node.entries[k].name) && WellFormed(node.entries[k].node))
  }

  // ---------- everything below a directory, in the order a walk meets it ----------

  /** Anything but a directory, with the names on the way to it. */
  datatype Leaf = Leaf(names: seq<string>, node: Node)

  function Leaves(node: Node, at: seq<string>): seq<Leaf>
    decreases node, if node.Dir? then |node.entries| + 1 else 0
  {
    if node.Dir? then LeavesFrom(node, 0, at) else [Leaf(at, node)]
  }

  function LeavesFrom(dir: Node, k: nat, at: seq<string>): seq<Leaf>
    requires dir.Dir? && k <= |dir.entries|
    decreases dir, |dir.entries| - k
  {
    if k == |dir.entries| then []
    else Leaves(dir.entries[k].node, at + [dir.entries[k].name]) + LeavesFrom(dir, k + 1, at)
  }

  predicate Below(at: seq<string>, names: seq<string>)
  {
    |at| <= |names| && names[..|at|] == at
  }

  lemma {:induction false} LeavesBelow(node: Node, at: seq<string>, leaf: Leaf)
    requires leaf in Leaves(node, at)
    ensures Below(at, leaf.names) && !leaf.node.Dir?
    ensures node.Dir? ==> |at| < |leaf.names|
    decreases node, if node.Dir? then |node.entries| + 1 else 0
  {
    if node.Dir? { var i := LeavesFromBelow(node, 0, at, leaf); }
  }

  lemma {:induction false} LeavesFromBelow(dir: Node, k: nat, at: seq<string>, leaf: Leaf) returns (i: nat)
    requires dir.Dir? && k <= |dir.entries| && leaf in LeavesFrom(dir, k, at)
    ensures k <= i < |dir.entries| && Below(at + [dir.entries[i].name], leaf.names)
    ensures leaf in Leaves(dir.entries[i].node, at + [dir.entries[i].name]) && !leaf.node.Dir?
    ensures Below(at, leaf.names) && |at| < |leaf.names| && leaf.names[|at|] == dir.entries[i].name
    decreases dir, |dir.entries| - k
  {
    var child := at + [dir.entries[k].name];
    if leaf in Leaves(dir.entries[k].node, child) {
      LeavesBelow(dir.entries[k].node, child, leaf);
      i := k;
      assert leaf.names[..|at|] == child[..|at|] == at;
      assert leaf.names[|at|] == child[|at|];
    } else {
      i := LeavesFromBelow(dir, k + 1, at, leaf);
    }
  }

  ghost predicate DistinctNames(leaves: seq<Leaf>)
  {
    forall i, j :: 0 <= i < j < |leaves| ==> leaves[i].names != leaves[j].names
  }

  /** A walk meets no path twice. */
  lemma {:induction false} LeavesDistinct(node: Node, at: seq<string>)
    requires WellFormed(node)
    ensures DistinctNames(Leaves(node, at))
    decreases node, if node.Dir? then |node.entries| + 1 else 0
  {
    if node.Dir? { LeavesFromDistinct(node, 0, at); }
  }

  lemma {:induction false} LeavesFromDistinct(dir: Node, k: nat, at: seq<string>)
    requires dir.Dir? && WellFormed(dir) && k <= |dir.entries|
    ensures DistinctNames(LeavesFrom(dir, k, at))
    decreases dir, |dir.entries| - k
  {
    if k < |dir.entries| {
      var child := at + [dir.entries[k].name];
      var here, rest := Leaves(dir.entries[k].node, child), LeavesFrom(dir, k + 1, at);
      LeavesDistinct(dir.entries[k].node, child);
      LeavesFromDistinct(dir, k + 1, at);
      forall i, j | 0 <= i < |here| && 0 <= j < |rest| ensures here[i].names != rest[j].names {
        LeavesBelow(dir.entries[k].node, child, here[i]);
        var other := LeavesFromBelow(dir, k + 1, at, rest[j]);
        assert here[i].names[|at|] == child[|at|];
      }
    }
  }

  lemma NamedAt(entries: seq<Entry>, k: nat)
    requires k < |entries| && forall i, j :: 0 <= i < j < |entries| ==> entries[i].name != entries[j].name
    ensures Named(entries, entries[k].name) == Some(entries[k].node)
  {
  }

  /** The walk meets exactly what looking the path up finds. */
  lemma {:induction false} LeavesAreLookups(node: Node, at: seq<string>, leaf: Leaf)
    requires WellFormed(node)
    ensures leaf in Leaves(node, at)
       <==> !leaf.node.Dir? && Below(at, leaf.names) && Lookup(node, leaf.names[|at|..]) == Some(leaf.node)
    decreases node, if node.Dir? then |node.entries| + 1 else 0
  {
    if !node.Dir? {
      if Below(at, leaf.names) && leaf.names[|at|..] == [] { assert leaf.names == at; }
    } else if leaf in Leaves(node, at) {
      var i := LeavesFromBelow(node, 0, at, leaf);
      var child := at + [node.entries[i].name];
      LeavesAreLookups(node.entries[i].node, child, leaf);
      NamedAt(node.entries, i);
      assert leaf.names[|at|..][0] == node.entries[i].name && leaf.names[|at|..][1..] == leaf.names[|child|..];
    } else if !leaf.node.Dir? && Below(at, leaf.names) && Lookup(node, leaf.names[|at|..]) == Some(leaf.node) {
      var names := leaf.names[|at|..];
      assert names != [];
      var i :| 0 <= i < |node.entries| && node.entries[i] == Entry(names[0], Named(node.entries, names[0]).value);
      var child := at + [names[0]];
      assert leaf.names[|child|..] == names[1..] && leaf.names[..|child|] == child;
      LeavesAreLookups(node.entries[i].node, child, leaf);
      InLeavesFrom(node, 0, i, at, leaf);
    }
  }

  lemma {:induction false} InLeavesFrom(dir: Node, k: nat, i: nat, at: seq<string>, leaf: Leaf)
    requires dir.Dir? && k <= i < |dir.entries| && leaf in Leaves(dir.entries[i].node, at + [dir.entries[i].name])
    ensures leaf in LeavesFrom(dir, k, at)
    decreases i - k
  {
    if k < i { InLeavesFrom(dir, k + 1, i, at, leaf); }
  }

  /** Two trees that hold the same things, however their directories are listed. */
  ghost predicate SameTree(a: Node, b: Node)
  {
    forall names :: var x, y := Lookup(a, names), Lookup(b, names);
      (x.None? <==> y.None?) && (x.Some? ==> (x.value.Dir? <==> y.value.Dir?) && (!x.value.Dir? ==> x == y))
  }

  lemma {:induction false} LeafNamesGood(node: Node, at: seq<string>, leaf: Leaf)
    requires WellFormed(node) && leaf in Leaves(node, at) && forall k :: 0 <= k < |at| ==> GoodName(at[k])
    ensures forall k :: 0 <= k < |leaf.names| ==> GoodName(leaf.names[k])
    decreases node
  {
    if node.Dir? {
      var i := LeavesFromBelow(node, 0, at, leaf);
      LeafNamesGood(node.entries[i].node, at + [node.entries[i].name], leaf);
    }
  }

  /** The path from the root, with `/` between the names. */
  function PathOf(names: seq<string>): string
  {
    Join(names, '/')
  }

  lemma PathsDiffer(a: seq<string>, b: seq<string>)
    requires a != [] && b != [] && PathOf(a) == PathOf(b)
    requires forall k :: 0 <= k < |a| ==> GoodName(a[k])
    requires forall k :: 0 <= k < |b| ==> GoodName(b[k])
    ensures a == b
  {
    SplitJoin(a, '/');
    SplitJoin(b, '/');
  }
}
