/** The check of a release tree against its pinned manifest (tools/verify-release.mjs): the rows are
    put in a map, and a walk of the tree uses the map up. */
module ReleaseCheck {
  import opened Sequences
  import opened JsText
  import opened FileTree
  import opened ReleaseManifest

  datatype Error = NotPinned | Unreadable | HashMismatch | BadEntry | SymbolicLink | Unsupported
                 | FileMismatch | FileMissing

  predicate IsPathChar(c: char)
  {
    'A' <= c <= 'Z' || 'a' <= c <= 'z' || '0' <= c <= '9' || c == '_' || c == '.' || c == '/' || c == '-'
  }

  /** `/^([a-f0-9]{64})  ([A-Za-z0-9_.\/-]+)$/` */
  predicate MatchesRow(row: string)
  {
    && |row| > 66 && HexDigest(row[..64]) && row[64..66] == "  "
    && forall k :: 66 <= k < |row| ==> IsPathChar(row[k])
  }

  predicate PlainName(name: string)
  {
    name != "" && name != "." && name != ".."
  }

  predicate PlainPath(path: string)
  {
    var names := Split(path, '/');
    (path == "" || path[0] != '/') && forall k :: 0 <= k < |names| ==> PlainName(names[k])
  }

  /** The map the rows give; none when a row is malformed, names a bad path or repeats one. */
  function Parse(rows: seq<string>): Option<map<string, string>>
  {
    if rows == [] then Some(map[])
    else
      var before, row := Parse(Front(rows)), Last(rows);
      if before.None? || !MatchesRow(row) || !PlainPath(row[66..]) || row[66..] in before.value then None
      else Some(before.value[row[66..] := row[..64]])
  }

  function ParseText(text: string): Option<map<string, string>>
  {
    Parse(Split(TrimEnd(text), '\n'))
  }

  datatype Progress = Progress(expected: map<string, string>, files: nat)

  /** What the walk does with one thing that is not a directory. */
  function Use(hash: string -> string, leaf: Leaf, p: Progress): Result<Progress, Error>
  {
    var path := PathOf(leaf.names);
    if leaf.node.Link? then Err(SymbolicLink)
    else if !leaf.node.File? then Err(Unsupported)
    else if path == MANIFEST then Ok(p)
    else if path !in p.expected || hash(leaf.node.bytes) != p.expected[path] then Err(FileMismatch)
    else Ok(Progress(p.expected - {path}, p.files + 1))
  }

  function UseAll(hash: string -> string, leaves: seq<Leaf>, p: Progress): Result<Progress, Error>
    decreases leaves
  {
    if leaves == [] then Ok(p)
    else
      var next := Use(hash, leaves[0], p);
      if next.Err? then next else UseAll(hash, leaves[1..], next.value)
  }

  /** The root manifest as it is read. A read goes through a symbolic link, to whatever it leads to. */
  function ReadManifest(root: Node, linked: Option<string>): Option<string>
    requires root.Dir?
  {
    var manifest := Named(root.entries, MANIFEST);
    if manifest.None? then None
    else if manifest.value.File? then Some(manifest.value.bytes)
    else if manifest.value.Link? then linked
    else None
  }

  /** `verifyRelease`; the number is `files`. */
  function Verify(hash: string -> string, root: Node, linked: Option<string>, pin: string): Result<nat, Error>
    requires root.Dir?
  {
    var manifest := ReadManifest(root, linked);
    if !HexDigest(pin) then Err(NotPinned)
    else if manifest.None? then Err(Unreadable)
    else if hash(manifest.value) != pin then Err(HashMismatch)
    else
      var table := ParseText(manifest.value);
      if table.None? then Err(BadEntry)
      else
        var walked := UseAll(hash, Leaves(root, []), Progress(table.value, 0));
        if walked.Err? then Err(walked.error)
        else if walked.value.expected != map[] then Err(FileMissing)
        else Ok(walked.value.files)
  }

  class Verifier {
    const hash: string -> string
    var expected: map<string, string>
    var files: nat

    constructor (hash: string -> string)
      ensures this.hash == hash && expected == map[] && files == 0
    {
      this.hash, this.expected, this.files := hash, map[], 0;
    }

    function Now(): Progress
      reads this
    {
      Progress(expected, files)
    }

    /** Reads the rows into `expected`. */
    method ReadRows(text: string) returns (ok: bool)
      requires expected == map[]
      modifies this`expected
      ensures ok <==> ParseText(text).Some?
      ensures ok ==> Some(expected) == ParseText(text)
    {
      hide HexDigest, IsPathChar, PlainPath, TrimEnd, Split;
      var rows := Split(TrimEnd(text), '\n');
      for k := 0 to |rows|
        invariant Parse(rows[..k]) == Some(expected)
      {
        var row := rows[k];
        assert Front(rows[..k + 1]) == rows[..k];
        if !MatchesRow(row) || !PlainPath(row[66..]) || row[66..] in expected {
          StaysUnparsed(rows, k + 1);
          return false;
        }
        expected := expected[row[66..] := row[..64]];
      }
      assert rows[..|rows|] == rows;
      ok := true;
    }

    method Visit(dir: Node, at: seq<string>) returns (error: Option<Error>)
      requires dir.Dir?
      modifies this`expected, this`files
      ensures UseAll(hash, LeavesFrom(dir, 0, at), old(Now())) == if error.None? then Ok(Now()) else Err(error.value)
      decreases dir
    {
      hide LeavesFrom, Leaves, PathOf, UseAll;
      ghost var start := Now();
      for k := 0 to |dir.entries|
        invariant UseAll(hash, LeavesFrom(dir, 0, at), start) == UseAll(hash, LeavesFrom(dir, k, at), Now())
      {
        var item := dir.entries[k];
        var file := at + [item.name];
        ghost var before := Now();
        UseNext(hash, dir, k, at, before);
        UseOne(hash, item.node, file, before);
        var relative := PathOf(file);
        if item.node.Link? { return Some(SymbolicLink); }
        if item.node.Dir? {
          error := Visit(item.node, file);
          if error.Some? { return; }
          continue;
        }
        if !item.node.File? { return Some(Unsupported); }
        if relative == MANIFEST { continue; }
        if relative !in expected || hash(item.node.bytes) != expected[relative] { return Some(FileMismatch); }
        expected := expected - {relative};
        files := files + 1;
      }
      UseNone(hash, dir, at, Now());
      error := None;
    }

    method VerifyRelease(root: Node, linked: Option<string>, pin: string) returns (result: Result<nat, Error>)
      requires root.Dir?
      modifies this`expected, this`files
      ensures result == Verify(hash, root, linked, pin)
    {
      hide UseAll, LeavesFrom, ParseText, HexDigest;
      expected, files := map[], 0;
      if !HexDigest(pin) { return Err(NotPinned); }
      var manifest := ReadManifest(root, linked);
      if manifest.None? { return Err(Unreadable); }
      if hash(manifest.value) != pin { return Err(HashMismatch); }
      var ok := ReadRows(manifest.value);
      if !ok { return Err(BadEntry); }
      var error := Visit(root, []);
      if error.Some? { return Err(error.value); }
      if expected != map[] { return Err(FileMissing); }
      result := Ok(files);
    }
  }

  lemma {:induction false} StaysUnparsed(rows: seq<string>, n: nat)
    requires n <= |rows| && Parse(rows[..n]).None?
    ensures Parse(rows).None?
  {
    if n == |rows| {
      assert rows[..n] == rows;
    } else {
      assert Front(rows)[..n] == rows[..n];
      StaysUnparsed(Front(rows), n);
    }
  }

  lemma {:induction false} UseAppend(hash: string -> string, a: seq<Leaf>, b: seq<Leaf>, p: Progress)
    ensures var first := UseAll(hash, a, p);
            UseAll(hash, a + b, p) == if first.Err? then first else UseAll(hash, b, first.value)
  {
    hide Use;
    if a == [] {
      assert a + b == b;
    } else {
      assert (a + b)[0] == a[0] && (a + b)[1..] == a[1..] + b;
      var next := Use(hash, a[0], p);
      if next.Ok? { UseAppend(hash, a[1..], b, next.value); }
    }
  }

  lemma UseNext(hash: string -> string, dir: Node, k: nat, at: seq<string>, p: Progress)
    requires dir.Dir? && k < |dir.entries|
    ensures var first := UseAll(hash, Leaves(dir.entries[k].node, at + [dir.entries[k].name]), p);
            UseAll(hash, LeavesFrom(dir, k, at), p) ==
            if first.Err? then first else UseAll(hash, LeavesFrom(dir, k + 1, at), first.value)
  {
    UseAppend(hash, Leaves(dir.entries[k].node, at + [dir.entries[k].name]), LeavesFrom(dir, k + 1, at), p);
  }

  lemma UseNone(hash: string -> string, dir: Node, at: seq<string>, p: Progress)
    requires dir.Dir?
    ensures UseAll(hash, LeavesFrom(dir, |dir.entries|, at), p) == Ok(p)
  {
  }

  lemma UseOne(hash: string -> string, node: Node, file: seq<string>, p: Progress)
    ensures node.Dir? ==> UseAll(hash, Leaves(node, file), p) == UseAll(hash, LeavesFrom(node, 0, file), p)
    ensures !node.Dir? ==> UseAll(hash, Leaves(node, file), p) == Use(hash, Leaf(file, node), p)
  {
    hide Use;
    if !node.Dir? {
      assert [Leaf(file, node)][1..] == [];
      var next := Use(hash, Leaf(file, node), p);
      assert next.Ok? ==> UseAll(hash, [], next.value) == next;
    }
  }

  // ---------- when a release is accepted ----------

  function RegularIn(leaves: seq<Leaf>): (regular: seq<Leaf>)
    requires AllFiles(leaves)
    ensures AllFiles(regular)
  {
    if leaves == [] then []
    else (if PathOf(leaves[0].names) == MANIFEST then [] else [leaves[0]]) + RegularIn(leaves[1..])
  }

  ghost predicate Submap(a: map<string, string>, b: map<string, string>)
  {
    forall path :: path in a ==> path in b && b[path] == a[path]
  }

  lemma {:induction false} RegularHas(leaves: seq<Leaf>, leaf: Leaf)
    requires AllFiles(leaves)
    ensures leaf in RegularIn(leaves) <==> leaf in leaves && PathOf(leaf.names) != MANIFEST
  {
    hide PathOf;
    if leaves != [] {
      RegularHas(leaves[1..], leaf);
      assert leaves == [leaves[0]] + leaves[1..];
    }
  }

  lemma {:induction false} RegularDistinct(leaves: seq<Leaf>)
    requires AllFiles(leaves) && DistinctPaths(leaves)
    ensures DistinctPaths(RegularIn(leaves))
  {
    hide PathOf;
    if leaves != [] {
      RegularDistinct(leaves[1..]);
      var rest := RegularIn(leaves[1..]);
      forall j | 0 <= j < |rest| ensures PathOf(rest[j].names) != PathOf(leaves[0].names) {
        RegularHas(leaves[1..], rest[j]);
        var k :| 0 <= k < |leaves[1..]| && leaves[1..][k] == rest[j];
        assert leaves[k + 1] == rest[j];
      }
    }
  }

  lemma NotInRest(hash: string -> string, leaves: seq<Leaf>, path: string)
    requires AllFiles(leaves) && DistinctPaths(leaves)
        && forall k :: 0 <= k < |leaves| ==> PathOf(leaves[k].names) != path
    ensures path !in Table(hash, RegularIn(leaves))
  {
    hide PathOf;
    var regular := RegularIn(leaves);
    RegularDistinct(leaves);
    if path in Table(hash, regular) {
      TableHas(hash, regular, path, Table(hash, regular)[path]);
      var k :| 0 <= k < |regular| && PathOf(regular[k].names) == path;
      RegularHas(leaves, regular[k]);
    }
  }

  /** The walk goes through exactly when everything is a regular file whose path and hash are in the
      map, and then it has used exactly those up. */
  lemma {:induction false} UseAllIff(hash: string -> string, leaves: seq<Leaf>, p: Progress)
    requires DistinctPaths(leaves)
    ensures UseAll(hash, leaves, p).Ok? <==> AllFiles(leaves) && Submap(Table(hash, RegularIn(leaves)), p.expected)
    ensures UseAll(hash, leaves, p).Ok? ==>
              var used := Table(hash, RegularIn(leaves));
              UseAll(hash, leaves, p).value == Progress(p.expected - used.Keys, p.files + |used|)
    decreases leaves
  {
    hide PathOf;
    if leaves == [] {
      assert p.expected - {} == p.expected;
    } else {
      var path := PathOf(leaves[0].names);
      var next := Use(hash, leaves[0], p);
      forall k | 0 <= k < |leaves[1..]| ensures PathOf(leaves[1..][k].names) != path {
        assert leaves[1..][k] == leaves[k + 1];
      }
      assert AllFiles(leaves) <==> leaves[0].node.File? && AllFiles(leaves[1..]) by { FilesSplit(leaves); }
      if leaves[0].node.File? {
        if next.Ok? { UseAllIff(hash, leaves[1..], next.value); }
        if AllFiles(leaves[1..]) {
          NotInRest(hash, leaves[1..], path);
          UseFirst(hash, leaves, p);
        }
      }
    }
  }

  lemma FilesSplit(leaves: seq<Leaf>)
    requires leaves != []
    ensures AllFiles(leaves) <==> leaves[0].node.File? && AllFiles(leaves[1..])
  {
    if leaves[0].node.File? && AllFiles(leaves[1..]) {
      forall k | 0 <= k < |leaves| ensures leaves[k].node.File? {
        if k > 0 { assert leaves[1..][k - 1] == leaves[k]; }
      }
    }
  }

  lemma UseFirst(hash: string -> string, leaves: seq<Leaf>, p: Progress)
    requires leaves != [] && AllFiles(leaves) && AllFiles(leaves[1..])
    requires PathOf(leaves[0].names) !in Table(hash, RegularIn(leaves[1..]))
    ensures var whole, rest := Table(hash, RegularIn(leaves)), Table(hash, RegularIn(leaves[1..]));
            var next := Use(hash, leaves[0], p);
            && (Submap(whole, p.expected) <==> next.Ok? && Submap(rest, next.value.expected))
            && (next.Ok?
               ==> p.expected - whole.Keys == next.value.expected - rest.Keys
                   && p.files + |whole| == next.value.files + |rest|)
  {
    hide PathOf, Submap;
    var path, digest := PathOf(leaves[0].names), hash(leaves[0].node.bytes);
    var whole, rest := Table(hash, RegularIn(leaves)), Table(hash, RegularIn(leaves[1..]));
    if path == MANIFEST {
      assert RegularIn(leaves) == RegularIn(leaves[1..]);
    } else {
      assert RegularIn(leaves)[0] == leaves[0] && RegularIn(leaves)[1..] == RegularIn(leaves[1..]);
      assert whole == rest[path := digest];
      TakeOne(rest, path, digest, p.expected);
    }
  }

  lemma TakeOne(rest: map<string, string>, path: string, digest: string, expected: map<string, string>)
    requires path !in rest
    ensures var whole := rest[path := digest];
            && (Submap(whole, expected)
               <==> path in expected && expected[path] == digest && Submap(rest, expected - {path}))
            && expected - whole.Keys == (expected - {path}) - rest.Keys
            && |whole| == |rest| + 1
  {
    SubmapTake(rest, path, digest, expected);
    KeysTake(rest.Keys, path, expected);
    assert rest[path := digest].Keys == rest.Keys + {path};
  }

  lemma SubmapTake(rest: map<string, string>, path: string, digest: string, expected: map<string, string>)
    requires path !in rest
    ensures Submap(rest[path := digest], expected)
        <==> path in expected && expected[path] == digest && Submap(rest, expected - {path})
  {
    var whole := rest[path := digest];
    if Submap(whole, expected) {
      assert path in whole;
      forall p | p in rest ensures p in expected - {path} && (expected - {path})[p] == rest[p] { assert p in whole; }
    }
  }

  lemma KeysTake(keys: set<string>, path: string, expected: map<string, string>)
    ensures expected - (keys + {path}) == (expected - {path}) - keys
  {
  }

  /** The path-to-hash map of a release, without the root manifest. */
  function FilesOf(hash: string -> string, root: Node): map<string, string>
    requires root.Dir? && AllFiles(Leaves(root, []))
  {
    Table(hash, RegularIn(Leaves(root, [])))
  }

  lemma PathsDistinct(root: Node)
    requires WellFormed(root) && root.Dir?
    ensures DistinctPaths(Leaves(root, []))
  {
    LeavesDistinct(root, []);
    var leaves := Leaves(root, []);
    forall i | 0 <= i < |leaves|
      ensures leaves[i].names != [] && forall k :: 0 <= k < |leaves[i].names| ==> GoodName(leaves[i].names[k])
    {
      LeafNamesGood(root, [], leaves[i]);
      LeavesBelow(root, [], leaves[i]);
    }
    PathsOfDistinct(leaves);
  }

  /** A release is accepted if and only if the pin is a digest and the manifest's own, the manifest
      parses, nothing in the tree is a link or a device, and the files without the root manifest are
      exactly the manifest's, path by path and hash by hash. The count is then that map's size. */
  lemma AcceptedIff(hash: string -> string, root: Node, linked: Option<string>, pin: string, n: nat)
    requires root.Dir? && WellFormed(root)
    ensures var manifest := Named(root.entries, MANIFEST);
            Verify(hash, root, linked, pin) == Ok(n) <==>
            (&& HexDigest(pin) && manifest.Some? && manifest.value.File? && hash(manifest.value.bytes) == pin
             && ParseText(manifest.value.bytes).Some?
             && AllFiles(Leaves(root, []))
             && FilesOf(hash, root) == ParseText(manifest.value.bytes).value
             && n == |FilesOf(hash, root)|)
  {
    hide Table, RegularIn, UseAll, ParseText, HexDigest, DistinctPaths, AllFiles;
    var manifest := ReadManifest(root, linked);
    PathsDistinct(root);
    if Named(root.entries, MANIFEST) == Some(Link) { LinkedManifest(root); }
    if manifest.Some? && ParseText(manifest.value).Some? {
      var table := ParseText(manifest.value).value;
      UseAllIff(hash, Leaves(root, []), Progress(table, 0));
      if AllFiles(Leaves(root, [])) { UsedUp(FilesOf(hash, root), table); }
    }
  }

  /** A manifest that is a link is met by the walk. */
  lemma LinkedManifest(root: Node)
    requires root.Dir? && WellFormed(root) && Named(root.entries, MANIFEST) == Some(Link)
    ensures !AllFiles(Leaves(root, []))
  {
    var leaf := Leaf([MANIFEST], Link);
    LeavesAreLookups(root, [], leaf);
    assert leaf.names[0..] == [MANIFEST] && [MANIFEST][1..] == [] && leaf.names[..0] == [];
    assert Lookup(Link, []) == Some(Link);
    var k :| 0 <= k < |Leaves(root, [])| && Leaves(root, [])[k] == leaf;
  }

  lemma UsedUp(files: map<string, string>, table: map<string, string>)
    ensures Submap(files, table) && table - files.Keys == map[] <==> files == table
  {
    if Submap(files, table) && table - files.Keys == map[] {
      forall path | path in table ensures path in files { assert path !in files ==> path in table - files.Keys; }
    }
  }

  // ---------- printer and checker ----------

  ghost predicate PlainLeaf(leaf: Leaf)
  {
    var path := PathOf(leaf.names);
    PlainPath(path) && path != "" && forall k :: 0 <= k < |path| ==> IsPathChar(path[k])
  }

  ghost predicate GoodRow(row: string)
  {
    MatchesRow(row) && PlainPath(row[66..])
  }

  ghost predicate RowsName(rows: seq<string>, path: string, digest: string)
  {
    exists k :: 0 <= k < |rows| && |rows[k]| > 66 && rows[k][66..] == path && rows[k][..64] == digest
  }

  predicate NamesDiffer(a: string, b: string)
  {
    |a| > 66 && |b| > 66 && a[66..] != b[66..]
  }

  ghost predicate DistinctlyNamed(rows: seq<string>)
  {
    forall i, j :: 0 <= i < j < |rows| ==> NamesDiffer(rows[i], rows[j])
  }

  lemma {:induction false} ParseHas(rows: seq<string>)
    requires DistinctlyNamed(rows) && forall k :: 0 <= k < |rows| ==> GoodRow(rows[k])
    ensures Parse(rows).Some?
    ensures forall path, digest :: Maps(Parse(rows).value, path, digest) <==> RowsName(rows, path, digest)
  {
    hide HexDigest, PlainPath, IsPathChar;
    if rows != [] {
      ParseHas(Front(rows));
      var before, row := Parse(Front(rows)).value, Last(rows);
      assert forall digest :: !Maps(before, row[66..], digest) by { NewName(rows); }
      assert row[66..] in before ==> Maps(before, row[66..], before[row[66..]]);
      var after := before[row[66..] := row[..64]];
      assert Parse(rows) == Some(after);
      forall path, digest ensures Maps(after, path, digest) <==> RowsName(rows, path, digest) {
        NameLast(rows, path, digest);
        if path != row[66..] { assert Maps(after, path, digest) <==> Maps(before, path, digest); }
      }
    }
  }

  lemma NewName(rows: seq<string>)
    requires rows != [] && DistinctlyNamed(rows) && GoodRow(Last(rows))
    ensures forall digest :: !RowsName(Front(rows), Last(rows)[66..], digest)
  {
    forall k | 0 <= k < |Front(rows)| ensures NamesDiffer(Front(rows)[k], Last(rows)) {
      assert NamesDiffer(rows[k], rows[|rows| - 1]);
    }
  }

  lemma NameLast(rows: seq<string>, path: string, digest: string)
    requires rows != [] && |Last(rows)| > 66
    ensures RowsName(rows, path, digest)
        <==> RowsName(Front(rows), path, digest) || (Last(rows)[66..] == path && Last(rows)[..64] == digest)
  {
    if k :| 0 <= k < |Front(rows)| && |rows[k]| > 66 && rows[k][66..] == path && rows[k][..64] == digest {
      assert Front(rows)[k] == rows[k];
    }
  }

  lemma {:induction false} ParseKeys(rows: seq<string>, path: string)
    requires Parse(rows).Some? && path in Parse(rows).value
    ensures path != "" && PlainPath(path) && forall k :: 0 <= k < |path| ==> IsPathChar(path[k])
  {
    hide PlainPath, HexDigest, IsPathChar;
    var row := Last(rows);
    if path == row[66..] {
      forall k | 0 <= k < |path| ensures IsPathChar(path[k]) { assert path[k] == row[66 + k]; }
    } else {
      ParseKeys(Front(rows), path);
    }
  }

  lemma {:induction false} JoinEnds(rows: seq<string>, sep: char)
    requires rows != [] && Last(rows) != ""
    ensures Join(rows, sep) != "" && Last(Join(rows, sep)) == Last(Last(rows))
  {
    if |rows| > 1 {
      JoinEnds(rows[1..], sep);
      assert Last(rows[1..]) == Last(rows);
    }
  }

  lemma TrimNewline(s: string)
    requires s != "" && !IsSpace(Last(s))
    ensures TrimEnd(s + "\n") == s
  {
    assert Front(s + "\n") == s && Last(s + "\n") == '\n';
    assert TrimEnd(s) == s;
  }

  lemma RowGood(hash: string -> string, leaf: Leaf)
    requires WellHashed(hash) && leaf.node.File? && PlainLeaf(leaf)
    ensures GoodRow(RowOf(hash, leaf)) && '\n' !in RowOf(hash, leaf) && !IsSpace(Last(RowOf(hash, leaf)))
    ensures RowOf(hash, leaf)[66..] == PathOf(leaf.names) && RowOf(hash, leaf)[..64] == hash(leaf.node.bytes)
  {
    hide PathOf, PlainPath;
    var digest, path := hash(leaf.node.bytes), PathOf(leaf.names);
    RowParts(digest, path);
    var row := RowOf(hash, leaf);
    forall k | 66 <= k < |row| ensures IsPathChar(row[k]) { assert row[k] == path[k - 66]; }
    RowOneLine(hash, leaf);
    assert Last(row) == Last(path);
  }

  ghost predicate AllPlain(leaves: seq<Leaf>)
  {
    forall k :: 0 <= k < |leaves| ==> PlainLeaf(leaves[k])
  }

  /** What the printer prints for plainly named files, the checker reads back. */
  lemma ParsePrinted(hash: string -> string, leaves: seq<Leaf>)
    requires WellHashed(hash) && AllFiles(leaves) && DistinctPaths(leaves) && AllPlain(leaves) && leaves != []
    ensures ParseText(Text(Rows(hash, leaves))) == Some(Table(hash, leaves))
  {
    hide Rows, SortRows, PathOf, DistinctPaths, PlainLeaf, GoodRow, TrimEnd, Parse, Table, RowOf, WellHashed;
    var rows := Rows(hash, leaves);
    RowsDistinct(hash, leaves);
    SortRowsKeeps(rows);
    var sorted := SortRows(rows);
    RowsHave(hash, leaves, "");
    assert rows[0] in rows;
    forall k | 0 <= k < |sorted|
      ensures sorted[k] != "" && GoodRow(sorted[k]) && '\n' !in sorted[k] && !IsSpace(Last(sorted[k]))
    {
      SortedRowGood(hash, leaves, sorted[k]);
    }
    JoinEnds(sorted, '\n');
    TrimNewline(Join(sorted, '\n'));
    SplitJoin(sorted, '\n');
    SortedDistinctPaths(hash, leaves, sorted);
    ParseHas(sorted);
    forall path, digest ensures Maps(Parse(sorted).value, path, digest) <==> Maps(Table(hash, leaves), path, digest) {
      TableHas(hash, leaves, path, digest);
      NamedByRows(hash, leaves, sorted, path, digest);
    }
    SameEntries(Parse(sorted).value, Table(hash, leaves));
  }

  lemma SortedRowGood(hash: string -> string, leaves: seq<Leaf>, row: string)
    requires WellHashed(hash) && AllFiles(leaves) && AllPlain(leaves) && row in Rows(hash, leaves)
    ensures GoodRow(row) && row != "" && '\n' !in row && !IsSpace(Last(row))
  {
    hide Rows, PlainLeaf, GoodRow, RowOf, WellHashed;
    RowsHave(hash, leaves, row);
    var i :| 0 <= i < |leaves| && row == RowOf(hash, leaves[i]);
    RowGood(hash, leaves[i]);
    assert GoodRow(row) ==> row != "" by { GoodRowLong(row); }
  }

  lemma GoodRowLong(row: string)
    ensures GoodRow(row) ==> |row| > 66
  {
  }

  lemma SortedDistinctPaths(hash: string -> string, leaves: seq<Leaf>, sorted: seq<string>)
    requires WellHashed(hash) && AllFiles(leaves) && DistinctPaths(leaves) && AllPlain(leaves)
    requires Sorted(sorted) && forall row :: row in sorted <==> row in Rows(hash, leaves)
    requires forall k :: 0 <= k < |sorted| ==> GoodRow(sorted[k])
    ensures DistinctlyNamed(sorted)
  {
    hide Rows, PlainLeaf, PathOf, RowOf, WellHashed, GoodRow;
    forall i, j | 0 <= i < j < |sorted| ensures NamesDiffer(sorted[i], sorted[j]) {
      GoodRowLong(sorted[i]);
      GoodRowLong(sorted[j]);
      Total(sorted[i], sorted[j]);
      assert sorted[i] in sorted && sorted[j] in sorted;
      RowsHave(hash, leaves, sorted[i]);
      RowsHave(hash, leaves, sorted[j]);
      var a :| 0 <= a < |leaves| && sorted[i] == RowOf(hash, leaves[a]);
      var b :| 0 <= b < |leaves| && sorted[j] == RowOf(hash, leaves[b]);
      RowGood(hash, leaves[a]);
      RowGood(hash, leaves[b]);
    }
  }

  lemma NamedByRows(hash: string -> string, leaves: seq<Leaf>, sorted: seq<string>, path: string, digest: string)
    requires WellHashed(hash) && AllFiles(leaves) && AllPlain(leaves)
    requires forall row :: row in sorted <==> row in Rows(hash, leaves)
    ensures RowsName(sorted, path, digest)
       <==> exists k :: 0 <= k < |leaves| && PathOf(leaves[k].names) == path && hash(leaves[k].node.bytes) == digest
  {
    hide Rows, PlainLeaf, PathOf, RowOf, WellHashed, GoodRow;
    if k :| 0 <= k < |sorted| && |sorted[k]| > 66 && sorted[k][66..] == path && sorted[k][..64] == digest {
      assert sorted[k] in sorted;
      RowsHave(hash, leaves, sorted[k]);
      var i :| 0 <= i < |leaves| && sorted[k] == RowOf(hash, leaves[i]);
      RowGood(hash, leaves[i]);
    }
    if i :| 0 <= i < |leaves| && PathOf(leaves[i].names) == path && hash(leaves[i].node.bytes) == digest {
      var row := RowOf(hash, leaves[i]);
      RowsHave(hash, leaves, row);
      RowGood(hash, leaves[i]);
      GoodRowLong(row);
      assert row in sorted;
      var k :| 0 <= k < |sorted| && sorted[k] == row;
    }
  }

  /** `released` is `root` with the manifest file put in, wherever `readdir` shows it. */
  ghost predicate WithManifest(root: Node, released: Node, text: string)
  {
    && root.Dir? && released.Dir? && WellFormed(root) && WellFormed(released)
    && (forall leaf :: leaf in Leaves(root, []) ==> PathOf(leaf.names) != MANIFEST)
    && (forall leaf ::
          leaf in Leaves(released, []) <==> leaf in Leaves(root, []) || leaf == Leaf([MANIFEST], File(text)))
  }

  lemma ManifestFound(root: Node, released: Node, text: string)
    requires WithManifest(root, released, text)
    ensures Named(released.entries, MANIFEST) == Some(File(text))
    ensures AllFiles(Leaves(released, [])) <==> AllFiles(Leaves(root, []))
  {
    hide Leaves, WellFormed, PathOf;
    var leaf := Leaf([MANIFEST], File(text));
    LeavesAreLookups(released, [], leaf);
    assert leaf.names[0..] == leaf.names && leaf.names[1..] == [] && leaf.names[0] == MANIFEST;
    assert Lookup(released, [MANIFEST]) == Some(File(text));
    assert Named(released.entries, MANIFEST).Some?
        && Lookup(Named(released.entries, MANIFEST).value, []) == Some(File(text));
    var a, b := Leaves(root, []), Leaves(released, []);
    if AllFiles(b) {
      forall k | 0 <= k < |a| ensures a[k].node.File? { assert a[k] in b; }
    }
    if AllFiles(a) {
      forall k | 0 <= k < |b| ensures b[k].node.File? { assert b[k] in b; }
    }
  }

  lemma ReleasedFiles(hash: string -> string, root: Node, released: Node, text: string)
    requires WithManifest(root, released, text) && AllFiles(Leaves(root, [])) && AllFiles(Leaves(released, []))
    ensures DistinctPaths(Leaves(root, [])) && FilesOf(hash, released) == Table(hash, Leaves(root, []))
  {
    hide Leaves, WellFormed, PathOf, RegularIn, Table, DistinctPaths;
    var a, b := Leaves(root, []), Leaves(released, []);
    PathsDistinct(root);
    PathsDistinct(released);
    RegularDistinct(b);
    ManifestPath();
    forall leaf ensures leaf in RegularIn(b) <==> leaf in a {
      RegularHas(b, leaf);
    }
    SameLeavesSameTable(hash, RegularIn(b), a);
  }

  lemma ManifestPath()
    ensures PathOf([MANIFEST]) == MANIFEST
  {
  }

  /** A tree of directories and regular files that is given its own printed manifest is accepted,
      under that manifest's hash, if and only if the manifest lists something, lists every file, and
      every path is plain. */
  lemma WrittenAcceptedIff(hash: string -> string, root: Node, released: Node)
    requires WellHashed(hash) && root.Dir? && AllFiles(Leaves(root, []))
        && WithManifest(root, released, ManifestText(hash, root))
    ensures Verify(hash, released, None, hash(ManifestText(hash, root))).Ok? <==>
            (&& Leaves(root, []) != []
             && forall leaf :: leaf in Leaves(root, []) ==> Listed(leaf) && PlainLeaf(leaf))
    ensures Verify(hash, released, None, hash(ManifestText(hash, root))).Ok? ==>
            Verify(hash, released, None, hash(ManifestText(hash, root))) == Ok(|Table(hash, Leaves(root, []))|)
  {
    hide Leaves, WellFormed, PathOf, Table, DistinctPaths, ParseText, PlainLeaf, Verify, Rows, Text, ListedIn, Listed,
        RegularIn, HexDigest;
    var text := ManifestText(hash, root);
    var leaves, listed := Leaves(root, []), ListedIn(Leaves(root, []));
    ManifestFound(root, released, text);
    ReleasedFiles(hash, root, released, text);
    ListedPathsDiffer(root);
    var verified := Verify(hash, released, None, hash(text));
    assert HexDigest(hash(text));
    AcceptedIff(hash, released, None, hash(text), |Table(hash, leaves)|);
    if verified.Ok? { AcceptedIff(hash, released, None, hash(text), verified.value); }
    forall leaf ensures leaf in listed <==> leaf in leaves && Listed(leaf) { ListedHas(leaves, leaf); }
    if ParseText(text) == Some(Table(hash, leaves)) { OnlyIfAllListed(hash, root); }
    if leaves != [] && forall leaf :: leaf in leaves ==> Listed(leaf) && PlainLeaf(leaf) {
      assert leaves[0] in listed;
      forall k | 0 <= k < |listed| ensures PlainLeaf(listed[k]) { assert listed[k] in listed; }
      ParsePrinted(hash, listed);
      SameLeavesSameTable(hash, listed, leaves);
    }
  }

  lemma OnlyIfAllListed(hash: string -> string, root: Node)
    requires WellHashed(hash) && root.Dir? && AllFiles(Leaves(root, [])) && WellFormed(root)
    requires ParseText(ManifestText(hash, root)) == Some(Table(hash, Leaves(root, [])))
    ensures Leaves(root, []) != []
    ensures forall leaf :: leaf in Leaves(root, []) ==> Listed(leaf) && PlainLeaf(leaf)
  {
    hide Leaves, WellFormed, PathOf, Table, DistinctPaths, Rows, SortRows, ListedIn, TrimEnd, Parse, PlainPath,
        IsPathChar, Split;
    var leaves, listed := Leaves(root, []), ListedIn(Leaves(root, []));
    var table := Table(hash, leaves);
    PathsDistinct(root);
    ListedPathsDiffer(root);
    forall leaf | leaf in leaves ensures PlainLeaf(leaf) {
      var k :| 0 <= k < |leaves| && leaves[k] == leaf;
      TableHas(hash, leaves, PathOf(leaf.names), hash(leaf.node.bytes));
      ParseKeys(Split(TrimEnd(ManifestText(hash, root)), '\n'), PathOf(leaf.names));
    }
    if listed == [] {
      EmptyManifest(hash);
    } else {
      forall k | 0 <= k < |listed| ensures PlainLeaf(listed[k]) {
        ListedHas(leaves, listed[k]);
        assert listed[k] in listed;
      }
      ListedHas(leaves, listed[0]);
      assert listed[0] in listed;
      ParsePrinted(hash, listed);
      forall leaf | leaf in leaves ensures Listed(leaf) { StillListed(hash, leaves, leaf); }
    }
  }

  lemma StillListed(hash: string -> string, leaves: seq<Leaf>, leaf: Leaf)
    requires AllFiles(leaves) && DistinctPaths(leaves) && DistinctPaths(ListedIn(leaves)) && leaf in leaves
    requires Table(hash, ListedIn(leaves)) == Table(hash, leaves)
    ensures Listed(leaf)
  {
    hide PathOf, Table, ListedIn;
    var k :| 0 <= k < |leaves| && leaves[k] == leaf;
    TableHas(hash, leaves, PathOf(leaf.names), hash(leaf.node.bytes));
    TableHas(hash, ListedIn(leaves), PathOf(leaf.names), hash(leaf.node.bytes));
    var listed := ListedIn(leaves);
    var i :| 0 <= i < |listed| && PathOf(listed[i].names) == PathOf(leaf.names);
    ListedHas(leaves, listed[i]);
    assert listed[i] in listed;
    var j :| 0 <= j < |leaves| && leaves[j] == listed[i];
    assert j == k;
  }

  /** Without a file the manifest is one line feed, and that is refused. */
  lemma EmptyManifest(hash: string -> string)
    ensures ParseText(Text(Rows(hash, []))) == None
  {
    hide ParseText;
    NoRowsText(hash);
    BlankText();
  }

  lemma NoRowsText(hash: string -> string)
    ensures Text(Rows(hash, [])) == "\n"
  {
    hide Before, InsertRow;
    assert Rows(hash, []) == [] && SortRows([]) == [] && Join(SortRows([]), '\n') == [];
  }

  lemma BlankText()
    ensures ParseText("\n") == None
  {
    hide MatchesRow, PlainPath, IsSpace;
    assert IsSpace('\n') by { NewlineIsSpace(); }
    assert Front("\n") == [] && Last("\n") == '\n' && TrimEnd([]) == [];
    assert TrimEnd("\n") == TrimEnd([]);
    assert Split<char>([], '\n') == [[]];
    EmptyRow();
    assert Last<string>([[]]) == [];
  }

  lemma NewlineIsSpace()
    ensures IsSpace('\n')
  {
  }

  lemma EmptyRow()
    ensures !MatchesRow("")
  {
  }

  // ---------- why a release is refused ----------

  lemma {:induction false} ParseOnly(rows: seq<string>)
    requires Parse(rows).Some?
    ensures DistinctlyNamed(rows) && forall k :: 0 <= k < |rows| ==> GoodRow(rows[k])
  {
    hide HexDigest, PlainPath, IsPathChar, MatchesRow;
    if rows != [] {
      var front, row := Front(rows), Last(rows);
      ParseOnly(front);
      ParseHas(front);
      assert GoodRow(row);
      forall k | 0 <= k < |front| ensures NamesDiffer(rows[k], row) {
        GoodRowLong(front[k]);
        GoodRowLong(row);
        assert RowsName(front, front[k][66..], front[k][..64]);
        assert Maps(Parse(front).value, front[k][66..], front[k][..64]);
      }
    }
  }

  /** The manifest parses if and only if every row has the form of one, with a plain path, and no two rows
      have the same path; the map is then that of the rows. */
  lemma ParseIff(rows: seq<string>)
    ensures Parse(rows).Some? <==> DistinctlyNamed(rows) && forall k :: 0 <= k < |rows| ==> GoodRow(rows[k])
    ensures Parse(rows).Some? ==>
              forall path, digest :: Maps(Parse(rows).value, path, digest) <==> RowsName(rows, path, digest)
  {
    hide Parse, DistinctlyNamed, GoodRow, Maps, RowsName;
    if Parse(rows).Some? { ParseOnly(rows); }
    if DistinctlyNamed(rows) && forall k :: 0 <= k < |rows| ==> GoodRow(rows[k]) { ParseHas(rows); }
  }

  /** A regular file that the manifest lists with its hash, or the root manifest itself. */
  ghost predicate Fits(hash: string -> string, table: map<string, string>, leaf: Leaf)
  {
    leaf.node.File? && (PathOf(leaf.names) == MANIFEST || Maps(table, PathOf(leaf.names), hash(leaf.node.bytes)))
  }

  /** The first thing a walk meets that does not fit, and what is said of it. */
  ghost predicate StopsAt(hash: string -> string, table: map<string, string>, leaves: seq<Leaf>, k: nat, e: Error)
  {
    && k < |leaves| && (forall j :: 0 <= j < k ==> Fits(hash, table, leaves[j])) && !Fits(hash, table, leaves[k])
    && e == match leaves[k].node
            case Link => SymbolicLink
            case File(_) => FileMismatch
            case _ => Unsupported
  }

  /** What is left of the map says the same of the paths that are still to come. */
  ghost predicate Agrees(table: map<string, string>, left: map<string, string>, leaves: seq<Leaf>)
  {
    forall k, digest :: 0 <= k < |leaves| ==>
      (Maps(table, PathOf(leaves[k].names), digest) <==> Maps(left, PathOf(leaves[k].names), digest))
  }

  lemma {:induction false} WalkStops(hash: string -> string, table: map<string, string>, leaves: seq<Leaf>, p: Progress)
    returns (k: nat)
    requires DistinctPaths(leaves) && Agrees(table, p.expected, leaves) && UseAll(hash, leaves, p).Err?
    requires forall i :: 0 <= i < |leaves| ==> !leaves[i].node.Dir?
    ensures StopsAt(hash, table, leaves, k, UseAll(hash, leaves, p).error)
    decreases leaves
  {
    hide PathOf, DistinctPaths;
    var next, path := Use(hash, leaves[0], p), PathOf(leaves[0].names);
    if next.Err? {
      k := 0;
      assert forall digest :: Maps(table, path, digest) <==> Maps(p.expected, path, digest);
    } else {
      var rest := leaves[1..];
      StillAgrees(hash, table, leaves, p);
      k := WalkStops(hash, table, rest, next.value);
      k := k + 1;
      assert Fits(hash, table, leaves[0]) by {
        assert Maps(table, path, hash(leaves[0].node.bytes)) <==> Maps(p.expected, path, hash(leaves[0].node.bytes));
      }
      assert forall j :: 1 <= j < |leaves| ==> leaves[j] == rest[j - 1];
    }
  }

  lemma StillAgrees(hash: string -> string, table: map<string, string>, leaves: seq<Leaf>, p: Progress)
    requires leaves != [] && DistinctPaths(leaves) && Agrees(table, p.expected, leaves) && Use(hash, leaves[0], p).Ok?
    ensures Agrees(table, Use(hash, leaves[0], p).value.expected, leaves[1..]) && DistinctPaths(leaves[1..])
  {
    hide PathOf;
    var rest := leaves[1..];
    forall k, digest | 0 <= k < |rest|
      ensures Maps(table, PathOf(rest[k].names), digest)
         <==> Maps(Use(hash, leaves[0], p).value.expected, PathOf(rest[k].names), digest)
    {
      var path := PathOf(leaves[k + 1].names);
      assert rest[k] == leaves[k + 1] && path != PathOf(leaves[0].names);
      assert Maps(table, path, digest) <==> Maps(p.expected, path, digest);
    }
  }

  /** Nothing under this path is checked against the map. The root manifest is not, even if it is listed. */
  ghost predicate NotMet(leaves: seq<Leaf>, path: string)
  {
    path == MANIFEST || forall leaf :: leaf in leaves ==> PathOf(leaf.names) != path
  }

  /** Every refusal, in the order of the checks: what is wrong with the pin, the manifest, the first thing the
      walk meets that does not fit, or, when everything fits, a listed file that is not there. */
  lemma RefusedBecause(hash: string -> string, root: Node, linked: Option<string>, pin: string, e: Error)
    requires root.Dir? && WellFormed(root) && Verify(hash, root, linked, pin) == Err(e)
    ensures var manifest, leaves := Named(root.entries, MANIFEST), Leaves(root, []);
            var text := match manifest
              case Some(File(bytes)) => Some(bytes)
              case Some(Link) => linked
              case _ => None;
            if !HexDigest(pin) then e == NotPinned
            else if text.None? then e == Unreadable
            else if hash(text.value) != pin then e == HashMismatch
            else
              var rows := Split(TrimEnd(text.value), '\n');
              if !DistinctlyNamed(rows) || exists k :: 0 <= k < |rows| && !GoodRow(rows[k]) then e == BadEntry
              else
                && Parse(rows).Some? && var table := Parse(rows).value;
                && (forall path, digest :: Maps(table, path, digest) <==> RowsName(rows, path, digest))
                && if forall leaf :: leaf in leaves ==> Fits(hash, table, leaf) then
                     e == FileMissing && exists path, digest :: Maps(table, path, digest) && NotMet(leaves, path)
                   else exists k: nat :: StopsAt(hash, table, leaves, k, e)
  {
    hide HexDigest, TrimEnd, Split, PathOf, UseAll, Leaves, Parse, DistinctlyNamed, GoodRow, Maps, RowsName, WellFormed;
    var text := ReadManifest(root, linked);
    if HexDigest(pin) && text.Some? && hash(text.value) == pin {
      var rows := Split(TrimEnd(text.value), '\n');
      ParseIff(rows);
      if Parse(rows).Some? { WalkRefuses(hash, root, Parse(rows).value, e); }
    }
  }

  lemma WalkRefuses(hash: string -> string, root: Node, table: map<string, string>, e: Error)
    requires root.Dir? && WellFormed(root)
    requires var walked := UseAll(hash, Leaves(root, []), Progress(table, 0));
             if walked.Err? then e == walked.error else e == FileMissing && walked.value.expected != map[]
    ensures var leaves := Leaves(root, []);
            if forall leaf :: leaf in leaves ==> Fits(hash, table, leaf) then
              e == FileMissing && exists path, digest ::
                Maps(table, path, digest) && NotMet(leaves, path)
            else exists k: nat :: StopsAt(hash, table, leaves, k, e)
  {
    hide PathOf, UseAll, Leaves, WellFormed, DistinctPaths, Table, Maps, RegularIn;
    var leaves := Leaves(root, []);
    PathsDistinct(root);
    forall i | 0 <= i < |leaves| ensures !leaves[i].node.Dir? { LeavesBelow(root, [], leaves[i]); }
    if UseAll(hash, leaves, Progress(table, 0)).Err? {
      var k := WalkStops(hash, table, leaves, Progress(table, 0));
      assert leaves[k] in leaves;
    } else {
      UseAllIff(hash, leaves, Progress(table, 0));
      var files := Table(hash, RegularIn(leaves));
      OneMissing(hash, leaves, table);
    }
  }

  /** Everything is in the map, and something is left over. */
  lemma OneMissing(hash: string -> string, leaves: seq<Leaf>, table: map<string, string>)
    requires AllFiles(leaves) && DistinctPaths(leaves) && Submap(Table(hash, RegularIn(leaves)), table)
    requires table - Table(hash, RegularIn(leaves)).Keys != map[]
    ensures forall leaf :: leaf in leaves ==> Fits(hash, table, leaf)
    ensures exists path, digest ::
              Maps(table, path, digest) && NotMet(leaves, path)
  {
    hide PathOf, RegularIn, Table, DistinctPaths;
    var regular := RegularIn(leaves);
    RegularDistinct(leaves);
    forall leaf | leaf in leaves ensures Fits(hash, table, leaf) {
      RegularHas(leaves, leaf);
      TableHas(hash, regular, PathOf(leaf.names), hash(leaf.node.bytes));
    }
    var left := table - Table(hash, regular).Keys;
    var path := HasKey(left);
    assert Maps(table, path, table[path]);
    forall leaf | leaf in leaves && path != MANIFEST ensures PathOf(leaf.names) != path {
      RegularHas(leaves, leaf);
      TableHas(hash, regular, PathOf(leaf.names), hash(leaf.node.bytes));
    }
    assert NotMet(leaves, path);
  }

  lemma HasKey(m: map<string, string>) returns (key: string)
    requires m != map[]
    ensures key in m
  {
    key :| key in m;
  }

  predicate Ordinary(names: seq<string>)
  {
    forall k :: 0 <= k < |names| ==> GoodName(names[k]) && names[k] != "." && names[k] != ".."
  }

  /** A plain path is that of names a directory entry can have, none of them `.` or `..`: whatever it is joined to,
      it leads below that. */
  lemma PlainPathIff(path: string)
    ensures PlainPath(path) <==>
            exists names :: names != [] && path == PathOf(names) && Ordinary(names)
  {
    var parts := Split(path, '/');
    JoinSplit(path, '/');
    SplitPiecesFree(path, '/');
    if PlainPath(path) {
      assert parts != [] && path == PathOf(parts);
      assert Ordinary(parts);
    }
    if names :| names != [] && path == PathOf(names) && Ordinary(names) {
      SplitJoin(names, '/');
      JoinBegins(names, '/');
    }
  }

  lemma JoinBegins(pieces: seq<string>, sep: char)
    requires pieces != [] && pieces[0] != ""
    ensures Join(pieces, sep) != "" && Join(pieces, sep)[0] == pieces[0][0]
  {
  }
}
