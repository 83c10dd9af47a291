/** The release manifest as tools/update-install.mjs prints it: one row `<sha256>  <path>` for each
    regular file it considers, sorted. The hash is a parameter. */
module ReleaseManifest {
  import opened Sequences
  import opened FileTree

  const MANIFEST: string := "RELEASE-MANIFEST.sha256"
  const NOT_LISTED: set<string> := {"RELEASE-MANIFEST.sha256", "INSTALLED-FROM", "STATE_DIR"}

  predicate IsHex(c: char)
  {
    'a' <= c <= 'f' || '0' <= c <= '9'
  }

  predicate HexDigest(s: string)
  {
    |s| == 64 && forall k :: 0 <= k < 64 ==> IsHex(s[k])
  }

  ghost predicate WellHashed(hash: string -> string)
  {
    forall bytes :: HexDigest(hash(bytes))
  }

  /** The files a manifest lists. Only a directory is skipped for being called `node_modules`. */
  predicate Listed(leaf: Leaf)
  {
    leaf.node.File? && leaf.names != [] && Last(leaf.names) !in NOT_LISTED && "node_modules" !in Front(leaf.names)
  }

  function ListedIn(leaves: seq<Leaf>): (listed: seq<Leaf>)
    ensures forall k :: 0 <= k < |listed| ==> Listed(listed[k])
  {
    if leaves == [] then [] else (if Listed(leaves[0]) then [leaves[0]] else []) + ListedIn(leaves[1..])
  }

  predicate AllFiles(leaves: seq<Leaf>)
  {
    forall k :: 0 <= k < |leaves| ==> leaves[k].node.File?
  }

  function RowOf(hash: string -> string, leaf: Leaf): string
    requires leaf.node.File?
  {
    hash(leaf.node.bytes) + "  " + PathOf(leaf.names)
  }

  function Rows(hash: string -> string, leaves: seq<Leaf>): seq<string>
    requires AllFiles(leaves)
  {
    if leaves == [] then [] else [RowOf(hash, leaves[0])] + Rows(hash, leaves[1..])
  }

  function EntryRows(hash: string -> string, node: Node, file: seq<string>): seq<string>
  {
    Rows(hash, ListedIn(Leaves(node, file)))
  }

  function RowsFrom(hash: string -> string, dir: Node, k: nat, at: seq<string>): seq<string>
    requires dir.Dir? && k <= |dir.entries|
  {
    Rows(hash, ListedIn(LeavesFrom(dir, k, at)))
  }

  // ---------- the order of rows ----------

  /** `sort()` without an argument: by code units. */
  predicate Before(a: string, b: string)
  {
    b != [] && (a == [] || a[0] < b[0] || (a[0] == b[0] && Before(a[1..], b[1..])))
  }

  function InsertRow(row: string, rows: seq<string>): seq<string>
  {
    if rows == [] || !Before(rows[0], row) then [row] + rows else [rows[0]] + InsertRow(row, rows[1..])
  }

  function SortRows(rows: seq<string>): seq<string>
  {
    if rows == [] then [] else InsertRow(rows[0], SortRows(rows[1..]))
  }

  function Text(rows: seq<string>): string
  {
    Join(SortRows(rows), '\n') + "\n"
  }

  function ManifestText(hash: string -> string, root: Node): string
    requires root.Dir?
  {
    Text(Rows(hash, ListedIn(Leaves(root, []))))
  }

  class Printer {
    const hash: string -> string
    var rows: seq<string>

    constructor (hash: string -> string)
      ensures this.hash == hash && rows == []
    {
      this.hash, this.rows := hash, [];
    }

    method Walk(dir: Node, at: seq<string>)
      requires dir.Dir? && "node_modules" !in at
      modifies this`rows
      ensures rows == old(rows) + RowsFrom(hash, dir, 0, at)
      decreases dir
    {
      hide Rows, ListedIn, LeavesFrom, Leaves, PathOf;
      for k := 0 to |dir.entries|
        invariant rows + RowsFrom(hash, dir, k, at) == old(rows) + RowsFrom(hash, dir, 0, at)
      {
        ghost var before := rows;
        var item := dir.entries[k];
        var file := at + [item.name];
        NextEntry(hash, dir, k, at);
        if item.node.Dir? {
          if item.name != "node_modules" {
            Walk(item.node, file);
            WholeDirectory(hash, item.node, file);
          } else {
            SkippedBelow(hash, item.node, file);
          }
        } else {
          OneEntry(hash, item.node, file);
          if item.node.File? && item.name !in NOT_LISTED {
            rows := rows + [hash(item.node.bytes) + "  " + PathOf(file)];
          }
        }
        Assoc(before, EntryRows(hash, item.node, file), RowsFrom(hash, dir, k + 1, at));
      }
      NoMoreEntries(hash, dir, at);
    }

    method Manifest(root: Node) returns (text: string)
      requires root.Dir?
      modifies this`rows
      ensures text == ManifestText(hash, root)
    {
      rows := [];
      Walk(root, []);
      WholeDirectory(hash, root, []);
      assert rows == RowsFrom(hash, root, 0, []);
      text := Text(rows);
    }
  }

  lemma {:induction false} ListedAppend(a: seq<Leaf>, b: seq<Leaf>)
    ensures ListedIn(a + b) == ListedIn(a) + ListedIn(b)
  {
    if a == [] {
      assert a + b == b;
    } else {
      assert (a + b)[1..] == a[1..] + b;
      ListedAppend(a[1..], b);
    }
  }

  lemma {:induction false} RowsAppend(hash: string -> string, a: seq<Leaf>, b: seq<Leaf>)
    requires AllFiles(a) && AllFiles(b)
    ensures Rows(hash, a + b) == Rows(hash, a) + Rows(hash, b)
  {
    if a == [] {
      assert a + b == b;
    } else {
      assert (a + b)[1..] == a[1..] + b;
      RowsAppend(hash, a[1..], b);
    }
  }

  lemma {:induction false} ListedHas(leaves: seq<Leaf>, leaf: Leaf)
    ensures leaf in ListedIn(leaves) <==> leaf in leaves && Listed(leaf)
  {
    if leaves != [] {
      ListedHas(leaves[1..], leaf);
      assert leaves == [leaves[0]] + leaves[1..];
    }
  }

  lemma NextEntry(hash: string -> string, dir: Node, k: nat, at: seq<string>)
    requires dir.Dir? && k < |dir.entries|
    ensures RowsFrom(hash, dir, k, at)
         == EntryRows(hash, dir.entries[k].node, at + [dir.entries[k].name]) + RowsFrom(hash, dir, k + 1, at)
  {
    var here, rest := Leaves(dir.entries[k].node, at + [dir.entries[k].name]), LeavesFrom(dir, k + 1, at);
    ListedAppend(here, rest);
    RowsAppend(hash, ListedIn(here), ListedIn(rest));
  }

  lemma NoMoreEntries(hash: string -> string, dir: Node, at: seq<string>)
    requires dir.Dir?
    ensures RowsFrom(hash, dir, |dir.entries|, at) == []
  {
  }

  lemma WholeDirectory(hash: string -> string, dir: Node, at: seq<string>)
    requires dir.Dir?
    ensures EntryRows(hash, dir, at) == RowsFrom(hash, dir, 0, at)
  {
  }

  lemma OneEntry(hash: string -> string, node: Node, file: seq<string>)
    requires !node.Dir?
    ensures EntryRows(hash, node, file) == if Listed(Leaf(file, node)) then [RowOf(hash, Leaf(file, node))] else []
  {
    hide RowOf;
    var leaf := Leaf(file, node);
    assert Leaves(node, file) == [leaf] && [leaf][1..] == [];
    assert ListedIn([leaf]) == (if Listed(leaf) then [leaf] else []) + ListedIn([]);
    if Listed(leaf) { assert Rows(hash, [leaf]) == [RowOf(hash, leaf)] + Rows(hash, []); }
  }

  lemma SkippedBelow(hash: string -> string, dir: Node, at: seq<string>)
    requires at != [] && Last(at) == "node_modules" && dir.Dir?
    ensures EntryRows(hash, dir, at) == []
  {
    forall leaf | leaf in Leaves(dir, at) ensures !Listed(leaf) {
      LeavesBelow(dir, at, leaf);
      assert Front(leaf.names)[|at| - 1] == leaf.names[..|at|][|at| - 1];
    }
    NoneListed(Leaves(dir, at));
  }

  lemma {:induction false} NoneListed(leaves: seq<Leaf>)
    requires forall leaf :: leaf in leaves ==> !Listed(leaf)
    ensures ListedIn(leaves) == []
  {
    if leaves != [] {
      NoneListed(leaves[1..]);
      assert leaves[0] in leaves;
    }
  }

  // ---------- sorting distinct rows ----------

  ghost predicate Sorted(rows: seq<string>)
  {
    forall i, j :: 0 <= i < j < |rows| ==> Before(rows[i], rows[j])
  }

  ghost predicate DistinctRows(rows: seq<string>)
  {
    forall i, j :: 0 <= i < j < |rows| ==> rows[i] != rows[j]
  }

  /** `a` is a proper beginning of `b`, or has the lower character where they first differ. */
  ghost predicate LowerText(a: string, b: string)
  {
    exists k :: 0 <= k < |b| && k <= |a| && a[..k] == b[..k] && (k == |a| || a[k] < b[k])
  }

  lemma {:induction false} BeforeIs(a: string, b: string)
    ensures Before(a, b) <==> LowerText(a, b)
  {
    if a != [] && b != [] {
      BeforeIs(a[1..], b[1..]);
      if LowerText(a, b) {
        var k :| 0 <= k < |b| && k <= |a| && a[..k] == b[..k] && (k == |a| || a[k] < b[k]);
        if k > 0 {
          assert a[0] == a[..k][0] == b[..k][0] == b[0];
          assert a[1..][..k - 1] == a[..k][1..] == b[..k][1..] == b[1..][..k - 1];
          assert LowerText(a[1..], b[1..]);
        }
      }
      if a[0] < b[0] { assert a[..0] == b[..0]; }
      if a[0] == b[0] && LowerText(a[1..], b[1..]) {
        var x, y := a[1..], b[1..];
        var k :| 0 <= k < |y| && k <= |x| && x[..k] == y[..k] && (k == |x| || x[k] < y[k]);
        assert a[..k + 1] == [a[0]] + x[..k] && b[..k + 1] == [b[0]] + y[..k];
      }
    } else if b != [] {
      assert a[..0] == b[..0];
    }
  }

  lemma {:induction false} Total(a: string, b: string)
    ensures Before(a, b) || a == b || Before(b, a)
    ensures Before(a, b) ==> a != b && !Before(b, a)
  {
    if a != [] && b != [] {
      Total(a[1..], b[1..]);
      assert a == [a[0]] + a[1..] && b == [b[0]] + b[1..];
    }
  }

  lemma {:induction false} Transitive(a: string, b: string, c: string)
    requires Before(a, b) && Before(b, c)
    ensures Before(a, c)
  {
    if a != [] && a[0] == b[0] == c[0] {
      Transitive(a[1..], b[1..], c[1..]);
    }
  }

  lemma FirstRow(row: string, rows: seq<string>)
    requires Sorted(rows) && forall r :: r in rows ==> Before(row, r)
    ensures Sorted([row] + rows)
  {
    forall i | 0 <= i < |rows| ensures Before(row, rows[i]) { assert rows[i] in rows; }
  }

  lemma {:induction false} InsertRowKeeps(row: string, rows: seq<string>)
    requires Sorted(rows) && row !in rows
    ensures Sorted(InsertRow(row, rows))
    ensures forall r :: r in InsertRow(row, rows) <==> r == row || r in rows
  {
    hide Before;
    if rows == [] {
    } else if !Before(rows[0], row) {
      Total(row, rows[0]);
      forall r | r in rows ensures Before(row, r) {
        if r != rows[0] { Transitive(row, rows[0], r); }
      }
      FirstRow(row, rows);
    } else {
      InsertRowKeeps(row, rows[1..]);
      assert rows == [rows[0]] + rows[1..];
      FirstRow(rows[0], InsertRow(row, rows[1..]));
    }
  }

  lemma {:induction false} SortRowsKeeps(rows: seq<string>)
    requires DistinctRows(rows)
    ensures Sorted(SortRows(rows))
    ensures forall r :: r in SortRows(rows) <==> r in rows
  {
    if rows != [] {
      SortRowsKeeps(rows[1..]);
      InsertRowKeeps(rows[0], SortRows(rows[1..]));
      assert rows == [rows[0]] + rows[1..];
    }
  }

  lemma {:induction false} SortedUnique(a: seq<string>, b: seq<string>)
    requires Sorted(a) && Sorted(b) && forall r :: r in a <==> r in b
    ensures a == b
  {
    hide Before;
    if a == [] || b == [] {
      NoRows(a, b);
    } else {
      SameFirst(a, b);
      forall r ensures r in a[1..] <==> r in b[1..] {
        Total(a[0], a[0]);
        assert r in a[1..] <==> r in a && r != a[0] by { Tail(a, r); }
        assert r in b[1..] <==> r in b && r != b[0] by { Tail(b, r); }
      }
      SortedUnique(a[1..], b[1..]);
      assert a == [a[0]] + a[1..] && b == [b[0]] + b[1..];
    }
  }

  lemma NoRows(a: seq<string>, b: seq<string>)
    requires (a == [] || b == []) && forall r :: r in a <==> r in b
    ensures a == b
  {
    FirstIn(a);
    FirstIn(b);
  }

  lemma Tail(a: seq<string>, r: string)
    requires Sorted(a) && a != []
    ensures r in a[1..] <==> r in a && r != a[0]
  {
    assert a == [a[0]] + a[1..];
    Total(a[0], a[0]);
    if r in a[1..] {
      var k :| 0 <= k < |a[1..]| && a[1..][k] == r;
      assert Before(a[0], a[k + 1]);
    }
  }

  lemma SameFirst(a: seq<string>, b: seq<string>)
    requires a != [] && b != [] && Sorted(a) && Sorted(b) && forall r :: r in a <==> r in b
    ensures a[0] == b[0]
  {
    assert a[0] in b && b[0] in a;
    Total(a[0], b[0]);
  }

  // ---------- the table behind a manifest ----------

  /** The path of each file, and its hash. */
  function Table(hash: string -> string, leaves: seq<Leaf>): map<string, string>
    requires AllFiles(leaves)
  {
    if leaves == [] then map[] else Table(hash, leaves[1..])[PathOf(leaves[0].names) := hash(leaves[0].node.bytes)]
  }

  ghost predicate DistinctPaths(leaves: seq<Leaf>)
  {
    forall i, j :: 0 <= i < j < |leaves| ==> PathOf(leaves[i].names) != PathOf(leaves[j].names)
  }

  ghost predicate Maps(table: map<string, string>, path: string, digest: string)
  {
    path in table && table[path] == digest
  }

  lemma {:induction false} TableHas(hash: string -> string, leaves: seq<Leaf>, path: string, digest: string)
    requires AllFiles(leaves) && DistinctPaths(leaves)
    ensures Maps(Table(hash, leaves), path, digest)
       <==> exists k :: 0 <= k < |leaves| && PathOf(leaves[k].names) == path && hash(leaves[k].node.bytes) == digest
  {
    hide PathOf;
    if leaves != [] {
      TableHas(hash, leaves[1..], path, digest);
      var rest := leaves[1..];
      if k :| 0 <= k < |rest| && PathOf(rest[k].names) == path && hash(rest[k].node.bytes) == digest {
        assert leaves[k + 1] == leaves[1..][k];
      }
      if k :| 0 <= k < |leaves| && PathOf(leaves[k].names) == path && hash(leaves[k].node.bytes) == digest {
        if k > 0 { assert leaves[1..][k - 1] == leaves[k]; }
      }
    }
  }

  ghost predicate IsRowOf(table: map<string, string>, row: string)
  {
    |row| >= 66 && row[66..] in table && row == table[row[66..]] + "  " + row[66..]
  }

  lemma RowParts(digest: string, path: string)
    requires |digest| == 64
    ensures var row := digest + "  " + path;
            |row| >= 66 && row[66..] == path && row[..64] == digest && row[64..66] == "  "
  {
  }

  lemma {:induction false} RowsHave(hash: string -> string, leaves: seq<Leaf>, row: string)
    requires AllFiles(leaves)
    ensures row in Rows(hash, leaves) <==> exists k :: 0 <= k < |leaves| && row == RowOf(hash, leaves[k])
    ensures |Rows(hash, leaves)| == |leaves|
    ensures forall k :: 0 <= k < |leaves| ==> Rows(hash, leaves)[k] == RowOf(hash, leaves[k])
  {
    if leaves != [] {
      RowsHave(hash, leaves[1..], row);
      forall k | 0 <= k < |leaves| ensures Rows(hash, leaves)[k] == RowOf(hash, leaves[k]) {
        if k > 0 { assert leaves[1..][k - 1] == leaves[k]; }
      }
    }
  }

  lemma RowsByTable(hash: string -> string, leaves: seq<Leaf>, row: string)
    requires AllFiles(leaves) && DistinctPaths(leaves) && WellHashed(hash)
    ensures row in Rows(hash, leaves) <==> IsRowOf(Table(hash, leaves), row)
  {
    hide PathOf, Table, Rows;
    RowsHave(hash, leaves, row);
    if row in Rows(hash, leaves) {
      var k :| 0 <= k < |leaves| && row == RowOf(hash, leaves[k]);
      RowParts(hash(leaves[k].node.bytes), PathOf(leaves[k].names));
      TableHas(hash, leaves, PathOf(leaves[k].names), hash(leaves[k].node.bytes));
    }
    if IsRowOf(Table(hash, leaves), row) {
      TableHas(hash, leaves, row[66..], Table(hash, leaves)[row[66..]]);
    }
  }

  lemma RowsDistinct(hash: string -> string, leaves: seq<Leaf>)
    requires AllFiles(leaves) && DistinctPaths(leaves) && WellHashed(hash)
    ensures DistinctRows(Rows(hash, leaves))
  {
    hide PathOf, Rows;
    var rows := Rows(hash, leaves);
    RowsHave(hash, leaves, "");
    forall i, j | 0 <= i < j < |rows| ensures rows[i] != rows[j] {
      RowParts(hash(leaves[i].node.bytes), PathOf(leaves[i].names));
      RowParts(hash(leaves[j].node.bytes), PathOf(leaves[j].names));
    }
  }

  /** The rows, sorted, are determined by the table and determine it. */
  lemma SortedByTable(hash: string -> string, a: seq<Leaf>, b: seq<Leaf>)
    requires AllFiles(a) && DistinctPaths(a) && AllFiles(b) && DistinctPaths(b) && WellHashed(hash)
    ensures SortRows(Rows(hash, a)) == SortRows(Rows(hash, b)) <==> Table(hash, a) == Table(hash, b)
  {
    hide Rows, Table, SortRows, IsRowOf, DistinctPaths;
    RowsDistinct(hash, a);
    RowsDistinct(hash, b);
    SortRowsKeeps(Rows(hash, a));
    SortRowsKeeps(Rows(hash, b));
    forall row
      ensures row in Rows(hash, a) <==> IsRowOf(Table(hash, a), row)
      ensures row in Rows(hash, b) <==> IsRowOf(Table(hash, b), row)
    {
      RowsByTable(hash, a, row);
      RowsByTable(hash, b, row);
    }
    if Table(hash, a) == Table(hash, b) {
      SortedUnique(SortRows(Rows(hash, a)), SortRows(Rows(hash, b)));
    }
    if SortRows(Rows(hash, a)) == SortRows(Rows(hash, b)) {
      DigestsInTable(hash, a);
      DigestsInTable(hash, b);
      SameRowsSameTable(Table(hash, a), Table(hash, b));
    }
  }

  lemma DigestsInTable(hash: string -> string, leaves: seq<Leaf>)
    requires AllFiles(leaves) && DistinctPaths(leaves) && WellHashed(hash)
    ensures forall path :: path in Table(hash, leaves) ==> |Table(hash, leaves)[path]| == 64
  {
    hide PathOf, Table;
    forall path | path in Table(hash, leaves) ensures |Table(hash, leaves)[path]| == 64 {
      TableHas(hash, leaves, path, Table(hash, leaves)[path]);
    }
  }

  lemma SameRowsSameTable(a: map<string, string>, b: map<string, string>)
    requires forall row :: IsRowOf(a, row) <==> IsRowOf(b, row)
    requires forall path :: path in a ==> |a[path]| == 64
    requires forall path :: path in b ==> |b[path]| == 64
    ensures a == b
  {
    forall path ensures path in a <==> path in b
      ensures path in a && path in b ==> a[path] == b[path]
    {
      if path in a {
        RowParts(a[path], path);
        assert IsRowOf(a, a[path] + "  " + path);
        if path in b { RowParts(b[path], path); }
      }
      if path in b {
        RowParts(b[path], path);
        assert IsRowOf(b, b[path] + "  " + path);
      }
    }
  }

  // ---------- paths ----------

  lemma ListedPathsDiffer(root: Node)
    requires WellFormed(root) && root.Dir?
    ensures DistinctPaths(ListedIn(Leaves(root, [])))
  {
    LeavesDistinct(root, []);
    ListedDistinct(Leaves(root, []));
    ListedGood(root);
    PathsOfDistinct(ListedIn(Leaves(root, [])));
  }

  lemma {:induction false} ListedDistinct(leaves: seq<Leaf>)
    requires DistinctNames(leaves)
    ensures DistinctNames(ListedIn(leaves))
  {
    if leaves != [] {
      ListedDistinct(leaves[1..]);
      var rest := ListedIn(leaves[1..]);
      forall j | 0 <= j < |rest| ensures rest[j].names != leaves[0].names {
        ListedHas(leaves[1..], rest[j]);
      }
    }
  }

  ghost predicate GoodNames(leaves: seq<Leaf>)
  {
    forall i :: 0 <= i < |leaves| ==>
      leaves[i].names != [] && forall k :: 0 <= k < |leaves[i].names| ==> GoodName(leaves[i].names[k])
  }

  lemma ListedGood(root: Node)
    requires WellFormed(root) && root.Dir?
    ensures GoodNames(ListedIn(Leaves(root, [])))
  {
    var listed := ListedIn(Leaves(root, []));
    forall i | 0 <= i < |listed|
      ensures listed[i].names != [] && forall k :: 0 <= k < |listed[i].names| ==> GoodName(listed[i].names[k])
    {
      ListedHas(Leaves(root, []), listed[i]);
      LeafNamesGood(root, [], listed[i]);
    }
  }

  lemma PathsOfDistinct(leaves: seq<Leaf>)
    requires DistinctNames(leaves) && GoodNames(leaves)
    ensures DistinctPaths(leaves)
  {
    hide PathOf;
    forall i, j | 0 <= i < j < |leaves| ensures PathOf(leaves[i].names) != PathOf(leaves[j].names) {
      if PathOf(leaves[i].names) == PathOf(leaves[j].names) { PathsDiffer(leaves[i].names, leaves[j].names); }
    }
  }

  // ---------- the theorems ----------

  /** What a tree's manifest says: for each listed file its path and hash. */
  function Contents(hash: string -> string, root: Node): map<string, string>
    requires root.Dir?
  {
    Table(hash, ListedIn(Leaves(root, [])))
  }

  /** The manifest does not depend on the order in which directories are listed. */
  lemma OrderDoesNotMatter(hash: string -> string, a: Node, b: Node)
    requires WellHashed(hash) && a.Dir? && b.Dir? && WellFormed(a) && WellFormed(b) && SameTree(a, b)
    ensures ManifestText(hash, a) == ManifestText(hash, b)
  {
    hide Rows, Table, SortRows, DistinctPaths, WellHashed;
    var la, lb := ListedIn(Leaves(a, [])), ListedIn(Leaves(b, []));
    ListedPathsDiffer(a);
    ListedPathsDiffer(b);
    forall leaf ensures leaf in la <==> leaf in lb {
      ListedHas(Leaves(a, []), leaf);
      ListedHas(Leaves(b, []), leaf);
      LeavesAreLookups(a, [], leaf);
      LeavesAreLookups(b, [], leaf);
      assert leaf.names[0..] == leaf.names && leaf.names[..0] == [];
      assert Lookup(a, leaf.names) == Some(leaf.node) && !leaf.node.Dir?
          ==> Lookup(b, leaf.names) == Lookup(a, leaf.names);
    }
    SameLeavesSameTable(hash, la, lb);
    SortedByTable(hash, la, lb);
  }

  lemma SameLeavesSameTable(hash: string -> string, a: seq<Leaf>, b: seq<Leaf>)
    requires AllFiles(a) && DistinctPaths(a) && AllFiles(b) && DistinctPaths(b)
    requires forall leaf :: leaf in a <==> leaf in b
    ensures Table(hash, a) == Table(hash, b)
  {
    hide PathOf, Table;
    forall path, digest ensures Maps(Table(hash, a), path, digest) <==> Maps(Table(hash, b), path, digest) {
      TableHas(hash, a, path, digest);
      TableHas(hash, b, path, digest);
      if k :| 0 <= k < |a| && PathOf(a[k].names) == path && hash(a[k].node.bytes) == digest { assert a[k] in b; }
      if k :| 0 <= k < |b| && PathOf(b[k].names) == path && hash(b[k].node.bytes) == digest { assert b[k] in a; }
    }
    SameEntries(Table(hash, a), Table(hash, b));
  }

  lemma SameEntries(a: map<string, string>, b: map<string, string>)
    requires forall path, digest :: Maps(a, path, digest) <==> Maps(b, path, digest)
    ensures a == b
  {
    forall path ensures path in a <==> path in b
      ensures path in a && path in b ==> a[path] == b[path]
    {
      if path in a { assert Maps(a, path, a[path]); }
      if path in b { assert Maps(b, path, b[path]); }
    }
  }

  ghost predicate OneLine(leaves: seq<Leaf>)
  {
    forall k :: 0 <= k < |leaves| ==> '\n' !in PathOf(leaves[k].names)
  }

  /** Two trees have the same manifest exactly when they list the same paths with the same hashes. */
  lemma SameManifestSameContents(hash: string -> string, a: Node, b: Node)
    requires WellHashed(hash) && a.Dir? && b.Dir? && WellFormed(a) && WellFormed(b)
    requires OneLine(ListedIn(Leaves(a, []))) && OneLine(ListedIn(Leaves(b, [])))
    ensures ManifestText(hash, a) == ManifestText(hash, b) <==> Contents(hash, a) == Contents(hash, b)
  {
    hide Rows, Table, SortRows, DistinctPaths, OneLine, WellHashed;
    var la, lb := ListedIn(Leaves(a, [])), ListedIn(Leaves(b, []));
    ListedPathsDiffer(a);
    ListedPathsDiffer(b);
    SortedByTable(hash, la, lb);
    if ManifestText(hash, a) == ManifestText(hash, b) {
      TextLines(hash, la);
      TextLines(hash, lb);
      assert Front(Split(ManifestText(hash, a), '\n')) == Front(Split(ManifestText(hash, b), '\n'));
    }
  }

  /** A manifest's lines are its rows; without rows it is one empty line. */
  lemma TextLines(hash: string -> string, leaves: seq<Leaf>)
    requires WellHashed(hash) && AllFiles(leaves) && DistinctPaths(leaves) && OneLine(leaves)
    ensures var sorted := SortRows(Rows(hash, leaves));
            && Split(Text(Rows(hash, leaves)), '\n') == (if sorted == [] then [""] else sorted) + [""]
            && [""] != sorted
            && forall k :: 0 <= k < |sorted| ==> '\n' !in sorted[k] && |sorted[k]| >= 66
  {
    hide Rows, SortRows, PathOf, DistinctPaths;
    var rows := Rows(hash, leaves);
    RowsDistinct(hash, leaves);
    SortRowsKeeps(rows);
    var sorted := SortRows(rows);
    forall k | 0 <= k < |sorted| ensures '\n' !in sorted[k] && |sorted[k]| >= 66 {
      assert sorted[k] in rows;
      RowsHave(hash, leaves, sorted[k]);
      var i :| 0 <= i < |leaves| && sorted[k] == RowOf(hash, leaves[i]);
      RowOneLine(hash, leaves[i]);
    }
    var text := Join(sorted, '\n');
    SplitAtSeparator(text, [], '\n');
    assert text + ['\n'] + [] == Text(rows);
    if sorted != [] { SplitJoin(sorted, '\n'); }
  }

  lemma RowOneLine(hash: string -> string, leaf: Leaf)
    requires WellHashed(hash) && leaf.node.File? && '\n' !in PathOf(leaf.names)
    ensures '\n' !in RowOf(hash, leaf) && |RowOf(hash, leaf)| >= 66
  {
    hide PathOf;
    var digest := hash(leaf.node.bytes);
    assert HexDigest(digest);
    assert '\n' !in digest;
  }

  // ---------- what the manifest says ----------

  /** A regular file of the tree under these names, none but the last of them skipped. */
  ghost predicate InTree(root: Node, names: seq<string>, bytes: string)
  {
    && names != [] && Lookup(root, names) == Some(File(bytes))
    && names[|names| - 1] !in NOT_LISTED
    && forall k :: 0 <= k < |names| - 1 ==> names[k] != "node_modules"
  }

  /** The manifest is one line for each file of the tree that is not skipped, and no other line, with its hash
      and its path, in rising order of the lines as texts. */
  lemma ManifestIs(hash: string -> string, root: Node) returns (rows: seq<string>)
    requires WellHashed(hash) && root.Dir? && WellFormed(root)
    ensures ManifestText(hash, root) == Join(rows, '\n') + "\n"
    ensures forall i, j :: 0 <= i < j < |rows| ==> LowerText(rows[i], rows[j])
    ensures forall row ::
              row in rows
              <==> exists names, bytes :: InTree(root, names, bytes) && row == hash(bytes) + "  " + PathOf(names)
  {
    hide Rows, SortRows, DistinctPaths, WellHashed, Join, Before, LowerText, WellFormed;
    var leaves := ListedIn(Leaves(root, []));
    rows := SortRows(Rows(hash, leaves));
    ListedPathsDiffer(root);
    RowsDistinct(hash, leaves);
    SortRowsKeeps(Rows(hash, leaves));
    forall i, j | 0 <= i < j < |rows| ensures LowerText(rows[i], rows[j]) { BeforeIs(rows[i], rows[j]); }
    forall row
      ensures row in rows
         <==> exists names, bytes :: InTree(root, names, bytes) && row == hash(bytes) + "  " + PathOf(names)
    {
      RowsHave(hash, leaves, row);
      forall names, bytes ensures Leaf(names, File(bytes)) in leaves <==> InTree(root, names, bytes) {
        ListedInTree(root, names, bytes);
      }
      if row in rows {
        var k :| 0 <= k < |leaves| && row == RowOf(hash, leaves[k]);
        assert leaves[k] == Leaf(leaves[k].names, File(leaves[k].node.bytes)) && leaves[k] in leaves;
      }
      if names, bytes :| InTree(root, names, bytes) && row == hash(bytes) + "  " + PathOf(names) {
        var k :| 0 <= k < |leaves| && leaves[k] == Leaf(names, File(bytes));
      }
    }
  }

  lemma ListedInTree(root: Node, names: seq<string>, bytes: string)
    requires root.Dir? && WellFormed(root)
    ensures Leaf(names, File(bytes)) in ListedIn(Leaves(root, [])) <==> InTree(root, names, bytes)
  {
    hide WellFormed, Lookup;
    var leaf := Leaf(names, File(bytes));
    ListedHas(Leaves(root, []), leaf);
    LeavesAreLookups(root, [], leaf);
    assert names[0..] == names && names[..0] == [];
    if names != [] {
      assert forall k :: 0 <= k < |names| - 1 ==> Front(names)[k] == names[k];
      if "node_modules" in Front(names) {
        var k :| 0 <= k < |Front(names)| && Front(names)[k] == "node_modules";
        assert names[k] == "node_modules";
      }
    }
  }
}
