/** The package switch of tools/update-install.mjs: two renames per package, each written to a
    journal before it happens, and undone in reverse by the updater itself or by a later
    `--recover`. A disk is what survives a crash: the trees next to each other, and the journal. */
module UpdateInstall {
  import opened Sequences
  import opened FileTree

  datatype Path = At(name: string)

  type Trees = map<Path, Node>

  datatype Move = Move(from: Path, to: Path)

  // ---------- renames and their undoing ----------

  function Moved(fs: Trees, from: Path, to: Path): Trees
    requires from in fs
  {
    (fs - {from})[to := fs[from]]
  }

  /** `renameSync` on package directories: the source must be there and the destination must not. */
  function Rename(fs: Trees, from: Path, to: Path): Option<Trees>
  {
    if from in fs && to !in fs then Some(Moved(fs, from, to)) else None
  }

  function Digits(n: nat): string
  {
    if n < 10 then ["0123456789"[n]] else Digits(n / 10) + ["0123456789"[n % 10]]
  }

  /** The number a text of decimal digits stands for. */
  function Value(digits: string): int
  {
    if digits == "" then 0 else Value(Front(digits)) * 10 + (Last(digits) as int - '0' as int)
  }

  /** `Digits` writes a number in decimal, without a zero in front. */
  lemma {:induction false} DigitsAre(n: nat)
    ensures Digits(n) != "" && Value(Digits(n)) == n
    ensures forall k :: 0 <= k < |Digits(n)| ==> '0' <= Digits(n)[k] <= '9'
    ensures Digits(n)[0] == '0' ==> n == 0
  {
    var last := "0123456789"[n % 10];
    assert last as int - '0' as int == n % 10;
    if n < 10 {
      assert Front([last]) == "" && Value("") == 0;
    } else {
      DigitsAre(n / 10);
      assert Front(Digits(n / 10) + [last]) == Digits(n / 10);
    }
  }

  /** Where `undo` moves a tree that stands in the way. */
  function Aside(from: Path, now: nat): Path
  {
    At(from.name + ".failed-" + Digits(now))
  }

  /** One turn of the loop in `undo`. A rename that fails is reported and the loop goes on. */
  function UndoOne(fs: Trees, m: Move, now: nat): Trees
  {
    if m.to !in fs then fs
    else if m.from !in fs then Moved(fs, m.to, m.from)
    else if Aside(m.from, now) in fs then fs
    else
      var cleared := Moved(fs, m.from, Aside(m.from, now));
      if m.to in cleared then Moved(cleared, m.to, m.from) else cleared
  }

  /** `undo`: every journaled move, the last one first. `clock[i]` is the time at move `i`. */
  function Undo(fs: Trees, moves: seq<Move>, clock: seq<nat>): Trees
    requires |clock| == |moves|
    decreases moves
  {
    if moves == [] then fs
    else Undo(UndoOne(fs, Last(moves), Last(clock)), Front(moves), Front(clock))
  }

  /** The trees after a list of renames that all succeed. */
  function Apply(fs: Trees, moves: seq<Move>): Option<Trees>
  {
    if moves == [] then Some(fs)
    else
      var before := Apply(fs, Front(moves));
      if before.None? then None else Rename(before.value, Last(moves).from, Last(moves).to)
  }

  lemma ApplyNothing(fs: Trees)
    ensures Apply(fs, []) == Some(fs)
  {
  }

  lemma {:induction false} ApplyPrefix(fs: Trees, moves: seq<Move>, n: nat)
    requires n <= |moves| && Apply(fs, moves).Some?
    ensures Apply(fs, moves[..n]).Some?
  {
    if n == |moves| {
      assert moves[..n] == moves;
    } else {
      assert moves[..n] == Front(moves)[..n];
      ApplyPrefix(fs, Front(moves), n);
    }
  }

  /** Undoing moves that were all performed gives back exactly what was there. */
  lemma {:induction false} UndoRestores(base: Trees, moves: seq<Move>, clock: seq<nat>)
    requires |clock| == |moves| && Apply(base, moves).Some?
    ensures Undo(Apply(base, moves).value, moves, clock) == base
  {
    if moves != [] {
      var before, m := Apply(base, Front(moves)).value, Last(moves);
      assert Moved(Moved(before, m.from, m.to), m.to, m.from) == before;
      UndoRestores(base, Front(moves), Front(clock));
    }
  }

  lemma {:induction false} UndoAppend(fs: Trees, a: seq<Move>, b: seq<Move>, clockA: seq<nat>, clockB: seq<nat>)
    requires |clockA| == |a| && |clockB| == |b|
    ensures Undo(fs, a + b, clockA + clockB) == Undo(Undo(fs, b, clockB), a, clockA)
    decreases b
  {
    if b == [] {
      assert a + b == a && clockA + clockB == clockA;
    } else {
      assert Front(a + b) == a + Front(b) && Front(clockA + clockB) == clockA + Front(clockB);
      UndoAppend(UndoOne(fs, Last(b), Last(clockB)), a, Front(b), clockA, Front(clockB));
    }
  }

  /** A journaled move that has not been performed: undoing the journal is exact if and only if the
      destination was free. The name with the time in it is what makes it so. */
  lemma UnperformedMove(base: Trees, moves: seq<Move>, m: Move, clock: seq<nat>, now: nat)
    requires |clock| == |moves| && Apply(base, moves).Some?
    requires m.from in Apply(base, moves).value
    requires var aside := Aside(m.from, now);
             aside !in base && aside !in Apply(base, moves).value && aside != m.to
             && forall k :: 0 <= k < |moves| ==> aside != moves[k].from && aside != moves[k].to
    ensures Undo(Apply(base, moves).value, moves + [m], clock + [now]) == base
       <==> m.to !in Apply(base, moves).value
  {
    var fs := Apply(base, moves).value;
    UndoAppend(fs, moves, [m], clock, [now]);
    assert Undo(fs, [m], [now]) == Undo(UndoOne(fs, m, now), [], []);
    UndoRestores(base, moves, clock);
    if m.to in fs {
      KeyStays(UndoOne(fs, m, now), moves, clock, Aside(m.from, now));
    }
  }

  /** A path that no move names stays occupied through any undoing. */
  lemma {:induction false} KeyStays(fs: Trees, moves: seq<Move>, clock: seq<nat>, key: Path)
    requires |clock| == |moves| && key in fs
    requires forall k :: 0 <= k < |moves| ==> key != moves[k].from && key != moves[k].to
    ensures key in Undo(fs, moves, clock)
    decreases moves
  {
    if moves != [] {
      KeyStays(UndoOne(fs, Last(moves), Last(clock)), Front(moves), Front(clock), key);
    }
  }

  // ---------- conservation ----------

  /** The trees of a disk, with how often each is stored. */
  ghost function Stored(fs: Trees): multiset<Node>
  {
    if fs == map[] then multiset{}
    else
      var p :| p in fs;
      multiset{fs[p]} + Stored(fs - {p})
  }

  lemma {:induction false} StoredWithout(fs: Trees, p: Path)
    requires p in fs
    ensures Stored(fs) == multiset{fs[p]} + Stored(fs - {p})
    decreases |fs|
  {
    var q :| q in fs && Stored(fs) == multiset{fs[q]} + Stored(fs - {q});
    if p != q {
      StoredSwap(fs, p, q);
    }
  }

  lemma {:induction false} StoredSwap(fs: Trees, p: Path, q: Path)
    requires p in fs && q in fs && p != q
    ensures multiset{fs[p]} + Stored(fs - {p}) == multiset{fs[q]} + Stored(fs - {q})
    decreases |fs|, 0
  {
    hide Stored;
    var lessP, lessQ := fs - {p}, fs - {q};
    assert |lessP| < |fs| && |lessQ| < |fs|;
    StoredWithout(lessP, q);
    StoredWithout(lessQ, p);
    assert lessP - {q} == lessQ - {p};
  }

  lemma MovedStored(fs: Trees, from: Path, to: Path)
    requires from in fs && to !in fs
    ensures Stored(Moved(fs, from, to)) == Stored(fs)
  {
    hide Stored;
    var moved := Moved(fs, from, to);
    StoredWithout(fs, from);
    StoredWithout(moved, to);
    assert moved - {to} == fs - {from};
  }

  /** No tree is ever lost: neither a rename nor any turn of an undo overwrites one. */
  lemma UndoOneConserves(fs: Trees, m: Move, now: nat)
    ensures Stored(UndoOne(fs, m, now)) == Stored(fs)
  {
    hide Stored;
    var aside := Aside(m.from, now);
    if m.to in fs && m.from !in fs {
      MovedStored(fs, m.to, m.from);
    } else if m.to in fs && aside !in fs {
      MovedStored(fs, m.from, aside);
      var cleared := Moved(fs, m.from, aside);
      if m.to in cleared { MovedStored(cleared, m.to, m.from); }
    }
  }

  lemma AsideIsOther(from: Path, now: nat)
    ensures Aside(from, now) != from
  {
    assert |Aside(from, now).name| > |from.name|;
  }

  // ---------- the two renames of every package ----------

  /** A package whose tree is put aside and whose new tree takes its place. */
  datatype Swap = Swap(pkg: Path, aside: Path, incoming: Path)

  /** An update: `<pkg>` to `<pkg>.prev-<stamp>`, `<pkg>.next` to `<pkg>`. */
  function UpdateSwaps(packages: seq<Path>, stamp: string): seq<Swap>
  {
    seq(|packages|, i requires 0 <= i < |packages| => 
      Swap(packages[i], At(packages[i].name + ".prev-" + stamp), At(packages[i].name + ".next")))
  }

  /** A rollback: `<pkg>` to `<pkg>.rolledback-<stamp>`, the chosen previous tree to `<pkg>`. */
  function RollbackSwaps(plan: seq<(Path, Path)>, stamp: nat): seq<Swap>
  {
    seq(|plan|, i requires 0 <= i < |plan| => 
      Swap(plan[i].0, At(plan[i].0.name + ".rolledback-" + Digits(stamp)), plan[i].1))
  }

  function Moves(swaps: seq<Swap>): (moves: seq<Move>)
    ensures |moves| == 2 * |swaps|
  {
    if swaps == [] then []
    else Moves(Front(swaps)) + [Move(Last(swaps).pkg, Last(swaps).aside), Move(Last(swaps).incoming, Last(swaps).pkg)]
  }

  lemma {:induction false} MovesAt(swaps: seq<Swap>, q: nat)
    requires q < |swaps|
    ensures Moves(swaps)[2 * q] == Move(swaps[q].pkg, swaps[q].aside)
    ensures Moves(swaps)[2 * q + 1] == Move(swaps[q].incoming, swaps[q].pkg)
  {
    if q < |swaps| - 1 { MovesAt(Front(swaps), q); }
  }

  /** What the update and the rollback need of the disk when they start to switch: the packages and
      their new trees are there, the names they are put aside under are not, and no package is
      another one's new tree. */
  ghost predicate Ready(fs: Trees, swaps: seq<Swap>)
  {
    && (forall q :: 0 <= q < |swaps| ==> swaps[q].pkg in fs && swaps[q].incoming in fs && swaps[q].aside !in fs)
    && (forall q, r :: 0 <= q < r < |swaps| ==>
          swaps[q].pkg != swaps[r].pkg && swaps[q].aside != swaps[r].aside && swaps[q].incoming != swaps[r].incoming)
    && (forall q, r :: 0 <= q < |swaps| && 0 <= r < |swaps| ==> swaps[q].incoming != swaps[r].pkg)
  }

  lemma SameSuffix(a: string, b: string, suffix: string)
    requires a + suffix == b + suffix
    ensures a == b
  {
    assert |a + suffix| == |a| + |suffix| && |b + suffix| == |b| + |suffix|;
    assert a == (a + suffix)[..|a|] && b == (b + suffix)[..|b|];
  }

  /** An update of distinct, installed and staged packages is ready exactly when no `.prev-<stamp>` is
      taken and no package is called like another one's `.next`; the preflight asks neither. */
  lemma UpdateReadyIff(base: Trees, packages: seq<Path>, stamp: string)
    requires forall q, r :: 0 <= q < r < |packages| ==> packages[q] != packages[r]
    requires forall q :: 0 <= q < |packages| ==> packages[q] in base && At(packages[q].name + ".next") in base
    ensures Ready(base, UpdateSwaps(packages, stamp)) <==>
            (&& (forall q :: 0 <= q < |packages| ==> At(packages[q].name + ".prev-" + stamp) !in base)
             && (forall q, r ::
                   0 <= q < |packages| && 0 <= r < |packages| ==> At(packages[q].name + ".next") != packages[r]))
  {
    var swaps := UpdateSwaps(packages, stamp);
    forall q, r | 0 <= q < r < |packages|
      ensures swaps[q].aside != swaps[r].aside && swaps[q].incoming != swaps[r].incoming
    {
      if swaps[q].aside == swaps[r].aside {
        Assoc(packages[q].name, ".prev-", stamp);
        Assoc(packages[r].name, ".prev-", stamp);
        SameSuffix(packages[q].name, packages[r].name, ".prev-" + stamp);
      }
      if swaps[q].incoming == swaps[r].incoming { SameSuffix(packages[q].name, packages[r].name, ".next"); }
    }
    if Ready(base, swaps) {
      forall q | 0 <= q < |packages| ensures At(packages[q].name + ".prev-" + stamp) !in base {
        assert swaps[q].aside !in base;
      }
      forall q, r | 0 <= q < |packages| && 0 <= r < |packages| ensures At(packages[q].name + ".next") != packages[r] {
        assert swaps[q].incoming != swaps[r].pkg;
      }
    }
  }

  /** A rollback of distinct, installed packages to previous trees that are there is ready exactly when
      no `.rolledback-<stamp>` is taken, no two packages have found the same previous tree, and no
      package is the previous tree of another one. The search for the newest `.prev-` asks none of it. */
  lemma RollbackReadyIff(base: Trees, plan: seq<(Path, Path)>, stamp: nat)
    requires forall q, r :: 0 <= q < r < |plan| ==> plan[q].0 != plan[r].0
    requires forall q :: 0 <= q < |plan| ==> plan[q].0 in base && plan[q].1 in base
    ensures Ready(base, RollbackSwaps(plan, stamp)) <==>
            (&& (forall q :: 0 <= q < |plan| ==> At(plan[q].0.name + ".rolledback-" + Digits(stamp)) !in base)
             && (forall q, r :: 0 <= q < r < |plan| ==> plan[q].1 != plan[r].1)
             && (forall q, r :: 0 <= q < |plan| && 0 <= r < |plan| ==> plan[q].1 != plan[r].0))
  {
    hide Digits;
    var swaps := RollbackSwaps(plan, stamp);
    forall q, r | 0 <= q < r < |plan| ensures swaps[q].aside != swaps[r].aside {
      if swaps[q].aside == swaps[r].aside {
        Assoc(plan[q].0.name, ".rolledback-", Digits(stamp));
        Assoc(plan[r].0.name, ".rolledback-", Digits(stamp));
        SameSuffix(plan[q].0.name, plan[r].0.name, ".rolledback-" + Digits(stamp));
      }
    }
    if Ready(base, swaps) {
      forall q | 0 <= q < |plan| ensures At(plan[q].0.name + ".rolledback-" + Digits(stamp)) !in base {
        assert swaps[q].aside !in base;
      }
      forall q, r | 0 <= q < r < |plan| ensures plan[q].1 != plan[r].1 {
        assert swaps[q].incoming != swaps[r].incoming;
      }
      forall q, r | 0 <= q < |plan| && 0 <= r < |plan| ensures plan[q].1 != plan[r].0 {
        assert swaps[q].incoming != swaps[r].pkg;
      }
    }
  }

  ghost predicate Endpoint(swaps: seq<Swap>, p: Path)
  {
    exists q :: 0 <= q < |swaps| && (p == swaps[q].pkg || p == swaps[q].aside || p == swaps[q].incoming)
  }

  /** One package after `m` of the moves: `d` of its own two moves are done. */
  ghost predicate Placed(base: Trees, s: Swap, d: int, fs: Trees)
    requires s.pkg in base && s.incoming in base
  {
    && (s.pkg in fs <==> d != 1)
    && (s.incoming in fs <==> d < 2)
    && (s.aside in fs <==> d >= 1)
    && (d <= 0 ==> fs[s.pkg] == base[s.pkg])
    && (d >= 2 ==> fs[s.pkg] == base[s.incoming])
    && (d >= 1 ==> fs[s.aside] == base[s.pkg])
    && (d < 2 ==> fs[s.incoming] == base[s.incoming])
  }

  ghost predicate Layout(base: Trees, swaps: seq<Swap>, m: nat, fs: Trees)
    requires Ready(base, swaps)
  {
    && (forall q :: 0 <= q < |swaps| ==> Placed(base, swaps[q], m - 2 * q, fs))
    && (forall p {:trigger Endpoint(swaps, p)} ::
          !Endpoint(swaps, p) ==> (p in fs <==> p in base) && (p in base ==> fs[p] == base[p]))
  }

  /** All the renames of a switch succeed, and after any number of them every package is where its
      own two moves have put it and nothing else has changed. */
  lemma {:induction false} SwitchLayout(base: Trees, swaps: seq<Swap>, m: nat)
    requires Ready(base, swaps) && m <= 2 * |swaps|
    ensures Apply(base, Moves(swaps)[..m]).Some?
    ensures Layout(base, swaps, m, Apply(base, Moves(swaps)[..m]).value)
  {
    hide Moves;
    if m > 0 {
      SwitchLayout(base, swaps, m - 1);
      var before := Apply(base, Moves(swaps)[..m - 1]).value;
      assert Front(Moves(swaps)[..m]) == Moves(swaps)[..m - 1];
      var q := (m - 1) / 2;
      MovesAt(swaps, q);
      assert Placed(base, swaps[q], m - 1 - 2 * q, before);
      var move := Moves(swaps)[m - 1];
      LayoutStep(base, swaps, m - 1, q, before, move);
    }
  }

  lemma LayoutStep(base: Trees, swaps: seq<Swap>, m: nat, q: nat, before: Trees, move: Move)
    requires Ready(base, swaps) && q < |swaps| && Layout(base, swaps, m, before)
    requires || (m == 2 * q && move == Move(swaps[q].pkg, swaps[q].aside))
             || (m == 2 * q + 1 && move == Move(swaps[q].incoming, swaps[q].pkg))
    ensures Rename(before, move.from, move.to).Some?
    ensures Layout(base, swaps, m + 1, Moved(before, move.from, move.to))
  {
    hide Placed;
    PlacedOwn(base, swaps[q], m - 2 * q, before, move);
    var after := Moved(before, move.from, move.to);
    forall r | 0 <= r < |swaps| ensures Placed(base, swaps[r], m + 1 - 2 * r, after) {
      if r != q {
        assert Placed(base, swaps[r], m - 2 * r, before);
        Apart(base, swaps, q, r);
        PlacedOther(base, swaps[r], m - 2 * r, before, move);
      }
    }
    assert Endpoint(swaps, move.from) && Endpoint(swaps, move.to);
  }

  lemma Apart(base: Trees, swaps: seq<Swap>, q: nat, r: nat)
    requires Ready(base, swaps) && q < |swaps| && r < |swaps| && q != r
    ensures {swaps[q].pkg, swaps[q].aside, swaps[q].incoming} !! {swaps[r].pkg, swaps[r].aside, swaps[r].incoming}
  {
    if q < r {
      assert swaps[q].pkg != swaps[r].pkg;
    } else {
      assert swaps[r].pkg != swaps[q].pkg;
    }
  }

  lemma PlacedOwn(base: Trees, s: Swap, d: int, before: Trees, move: Move)
    requires s.pkg in base && s.incoming in base && s.aside !in base && s.pkg != s.incoming
    requires Placed(base, s, d, before)
    requires (d == 0 && move == Move(s.pkg, s.aside)) || (d == 1 && move == Move(s.incoming, s.pkg))
    ensures Rename(before, move.from, move.to).Some?
    ensures Placed(base, s, d + 1, Moved(before, move.from, move.to))
  {
  }

  lemma PlacedOther(base: Trees, s: Swap, d: int, before: Trees, move: Move)
    requires s.pkg in base && s.incoming in base
    requires Placed(base, s, d, before) && move.from in before && (d >= 2 || d <= -1)
    requires move.from !in {s.pkg, s.aside, s.incoming} && move.to !in {s.pkg, s.aside, s.incoming}
    ensures Placed(base, s, d + 1, Moved(before, move.from, move.to))
  {
  }

  /** A completed switch: every package holds its new tree, its old one is kept under the name it
      was put aside under, and nothing else has changed. */
  lemma SwitchResult(base: Trees, swaps: seq<Swap>)
    requires Ready(base, swaps)
    ensures Apply(base, Moves(swaps)).Some?
    ensures var fs := Apply(base, Moves(swaps)).value;
            && (forall q :: 0 <= q < |swaps| ==>
                  && swaps[q].pkg in fs && fs[swaps[q].pkg] == base[swaps[q].incoming]
                  && swaps[q].aside in fs && fs[swaps[q].aside] == base[swaps[q].pkg]
                  && swaps[q].incoming !in fs)
            && (forall p {:trigger Endpoint(swaps, p)} ::
                  !Endpoint(swaps, p) ==> (p in fs <==> p in base) && (p in base ==> fs[p] == base[p]))
  {
    SwitchLayout(base, swaps, 2 * |swaps|);
    assert Moves(swaps)[..2 * |swaps|] == Moves(swaps);
    var fs := Apply(base, Moves(swaps)).value;
    forall q | 0 <= q < |swaps|
      ensures swaps[q].pkg in fs && fs[swaps[q].pkg] == base[swaps[q].incoming]
      ensures swaps[q].aside in fs && fs[swaps[q].aside] == base[swaps[q].pkg] && swaps[q].incoming !in fs
    {
      assert Placed(base, swaps[q], 2 * |swaps| - 2 * q, fs);
    }
  }

  // ---------- recovery ----------

  lemma {:induction false} UndoUnperformed(fs: Trees, moves: seq<Move>, clock: seq<nat>)
    requires |clock| == |moves| && forall k :: 0 <= k < |moves| ==> moves[k].to !in fs
    ensures Undo(fs, moves, clock) == fs
  {
    if moves != [] { UndoUnperformed(fs, Front(moves), Front(clock)); }
  }

  /** Of `n` journaled moves, `m` are done: not one package has had both its moves undone. */
  predicate Resumable(n: nat, m: nat)
  {
    m + 1 >= n - n % 2
  }

  /** A name that is neither on the disk nor used by a switch. */
  ghost predicate FreeName(base: Trees, swaps: seq<Swap>, name: Path)
  {
    name !in base && forall r :: 0 <= r < |swaps| ==> name != swaps[r].aside
  }

  /** The names `undo` may move a standing tree to are free. */
  ghost predicate AsidesFree(base: Trees, swaps: seq<Swap>, clock: seq<nat>)
  {
    forall q, k :: 0 <= q < |swaps| && 0 <= k < |clock| ==> FreeName(base, swaps, Aside(swaps[q].incoming, clock[k]))
  }

  /** One complete undo of a journal of `n` moves, over a disk where the first `m` of them stand,
      restores every path exactly, if and only if no package has had both its moves undone. */
  lemma RecoveryExact(base: Trees, swaps: seq<Swap>, n: nat, m: nat, clock: seq<nat>)
    requires Ready(base, swaps) && m <= n <= 2 * |swaps| && |clock| == n && AsidesFree(base, swaps, clock)
    requires Apply(base, Moves(swaps)[..m]).Some?
    ensures Undo(Apply(base, Moves(swaps)[..m]).value, Moves(swaps)[..n], clock) == base <==> Resumable(n, m)
  {
    if Resumable(n, m) {
      RecoveryRestores(base, swaps, n, m, clock);
    } else {
      RecoveryMisplaces(base, swaps, n, m, clock);
    }
  }

  /** The destination of a move that is not done is free, unless it is the package path of a
      package neither of whose moves is done. */
  lemma NotThere(base: Trees, swaps: seq<Swap>, m: nat, k: nat)
    requires Ready(base, swaps) && m <= k < 2 * |swaps|
    ensures Apply(base, Moves(swaps)[..m]).Some?
    ensures Moves(swaps)[k].to !in Apply(base, Moves(swaps)[..m]).value <==> k == m || k % 2 == 0
  {
    hide Moves, Apply;
    SwitchLayout(base, swaps, m);
    MovesAt(swaps, k / 2);
    assert Placed(base, swaps[k / 2], m - 2 * (k / 2), Apply(base, Moves(swaps)[..m]).value);
  }

  lemma RecoveryRestores(base: Trees, swaps: seq<Swap>, n: nat, m: nat, clock: seq<nat>)
    requires Ready(base, swaps) && m <= n <= 2 * |swaps| && |clock| == n && Resumable(n, m)
    ensures Apply(base, Moves(swaps)[..m]).Some?
    ensures Undo(Apply(base, Moves(swaps)[..m]).value, Moves(swaps)[..n], clock) == base
  {
    hide Moves, Undo, Ready, Apply;
    var moves := Moves(swaps);
    SwitchLayout(base, swaps, m);
    var fs := Apply(base, moves[..m]).value;
    var rest := moves[m..n];
    forall k | 0 <= k < |rest| ensures rest[k].to !in fs {
      NotThere(base, swaps, m, m + k);
    }
    UndoUnperformed(fs, rest, clock[m..]);
    assert moves[..n] == moves[..m] + rest && clock == clock[..m] + clock[m..];
    UndoAppend(fs, moves[..m], rest, clock[..m], clock[m..]);
    UndoRestores(base, moves[..m], clock[..m]);
  }

  lemma RecoveryMisplaces(base: Trees, swaps: seq<Swap>, n: nat, m: nat, clock: seq<nat>)
    requires Ready(base, swaps) && m <= n <= 2 * |swaps| && |clock| == n && AsidesFree(base, swaps, clock)
    requires !Resumable(n, m)
    ensures Apply(base, Moves(swaps)[..m]).Some?
    ensures Undo(Apply(base, Moves(swaps)[..m]).value, Moves(swaps)[..n], clock) != base
  {
    hide Moves, Undo, Apply, Ready, Aside, AsidesFree, FreeName;
    var moves := Moves(swaps);
    SwitchLayout(base, swaps, m);
    var fs := Apply(base, moves[..m]).value;
    var q := n / 2 - 1;
    var i := 2 * q + 1;
    if i + 1 < n { NotThere(base, swaps, m, i + 1); }
    var rest := moves[i + 1..n];
    UndoUnperformed(fs, rest, clock[i + 1..]);
    var upTo, clocked := moves[..i] + [moves[i]], clock[..i] + [clock[i]];
    assert moves[..n] == upTo + rest && clock == clocked + clock[i + 1..];
    UndoAppend(fs, upTo, rest, clocked, clock[i + 1..]);
    BothStand(base, swaps, m, q);
    AsideFree(base, swaps, clock, q, i);
    AsideOutside(base, swaps, m, fs, Aside(swaps[q].incoming, clock[i]));
    UndoSidesteps(fs, moves[..i], moves[i], clock[..i], clock[i]);
  }

  lemma BothStand(base: Trees, swaps: seq<Swap>, m: nat, q: nat)
    requires Ready(base, swaps) && q < |swaps| && m <= 2 * q
    ensures Apply(base, Moves(swaps)[..m]).Some?
    ensures var fs := Apply(base, Moves(swaps)[..m]).value;
            Moves(swaps)[2 * q + 1] == Move(swaps[q].incoming, swaps[q].pkg) && swaps[q].incoming in fs
                && swaps[q].pkg in fs
            && swaps[q].incoming != swaps[q].pkg
  {
    hide Moves, Apply;
    SwitchLayout(base, swaps, m);
    MovesAt(swaps, q);
    assert Placed(base, swaps[q], m - 2 * q, Apply(base, Moves(swaps)[..m]).value);
  }

  lemma AsideFree(base: Trees, swaps: seq<Swap>, clock: seq<nat>, q: nat, k: nat)
    requires AsidesFree(base, swaps, clock) && q < |swaps| && k < |clock|
    ensures FreeName(base, swaps, Aside(swaps[q].incoming, clock[k])) && Aside(swaps[q].incoming, clock[k]) !in base
  {
  }

  lemma AsideOutside(base: Trees, swaps: seq<Swap>, m: nat, fs: Trees, name: Path)
    requires Ready(base, swaps) && Layout(base, swaps, m, fs) && FreeName(base, swaps, name)
    ensures name !in fs
    ensures forall k :: 0 <= k < |Moves(swaps)| ==> name != Moves(swaps)[k].from && name != Moves(swaps)[k].to
  {
    hide Moves;
    assert !Endpoint(swaps, name);
    forall k | 0 <= k < |Moves(swaps)| ensures name != Moves(swaps)[k].from && name != Moves(swaps)[k].to {
      MovesAt(swaps, k / 2);
    }
  }

  /** A move whose source and destination both stand leaves a tree under a `.failed-` name for good. */
  lemma UndoSidesteps(fs: Trees, moves: seq<Move>, m: Move, clock: seq<nat>, now: nat)
    requires |clock| == |moves| && m.from in fs && m.to in fs && Aside(m.from, now) !in fs
        && Aside(m.from, now) != m.to && m.from != m.to
    requires forall k :: 0 <= k < |moves| ==> Aside(m.from, now) != moves[k].from && Aside(m.from, now) != moves[k].to
    ensures Aside(m.from, now) in Undo(fs, moves + [m], clock + [now])
  {
    UndoAppend(fs, moves, [m], clock, [now]);
    assert Undo(fs, [m], [now]) == Undo(UndoOne(fs, m, now), [], []);
    AsideIsOther(m.from, now);
    KeyStays(UndoOne(fs, m, now), moves, clock, Aside(m.from, now));
  }

  /** A recovery that is itself killed when `m` of the journaled moves still stand, and the complete
      recovery that follows it: exact if and only if no package had both its moves undone. */
  lemma InterruptedRecovery(base: Trees, swaps: seq<Swap>, n: nat, done: nat, m: nat, first: seq<nat>, second: seq<nat>)
    requires Ready(base, swaps) && done <= n <= done + 1 && m <= done && n <= 2 * |swaps|
    requires |first| == n - m && |second| == n && AsidesFree(base, swaps, second)
    ensures Apply(base, Moves(swaps)[..done]).Some?
    ensures var killed := Undo(Apply(base, Moves(swaps)[..done]).value, Moves(swaps)[m..n], first);
            Undo(killed, Moves(swaps)[..n], second) == base <==> Resumable(n, m)
  {
    hide Moves, Undo, Apply, Ready, AsidesFree;
    var moves := Moves(swaps);
    SwitchLayout(base, swaps, done);
    SwitchLayout(base, swaps, m);
    var fs, at := Apply(base, moves[..done]).value, Apply(base, moves[..m]).value;
    if done < n { NotThere(base, swaps, done, done); }
    UndoUnperformed(fs, moves[done..n], first[done - m..]);
    assert moves[m..n] == moves[m..done] + moves[done..n] && first == first[..done - m] + first[done - m..];
    UndoAppend(fs, moves[m..done], moves[done..n], first[..done - m], first[done - m..]);
    assert moves[..done] == moves[..m] + moves[m..done];
    ApplyAppend(base, moves[..m], moves[m..done]);
    UndoRestores(at, moves[m..done], first[..done - m]);
    RecoveryExact(base, swaps, n, m, second);
  }

  lemma {:induction false} ApplyAppend(base: Trees, a: seq<Move>, b: seq<Move>)
    requires Apply(base, a + b).Some?
    ensures Apply(base, a).Some? && Apply(Apply(base, a).value, b) == Apply(base, a + b)
  {
    if b == [] {
      assert a + b == a;
    } else {
      assert Front(a + b) == a + Front(b);
      ApplyAppend(base, a, Front(b));
    }
  }

  /** The journal replayed twice, for one package: the restored tree is moved away again and the
      package path is left empty. */
  lemma SecondUndoMovesAway(pkg: Path, aside: Path, incoming: Path, old0: Node, new0: Node)
    requires pkg != aside && pkg != incoming && aside != incoming
    requires Aside(incoming, 0) != pkg && Aside(incoming, 0) != aside
    ensures var base: Trees := map[pkg := old0, incoming := new0];
            var moves := [Move(pkg, aside), Move(incoming, pkg)];
            && Apply(base, moves).Some?
            && Undo(Apply(base, moves).value, moves, [0, 0]) == base
            && pkg !in Undo(base, moves, [0, 0])
            && incoming in Undo(base, moves, [0, 0]) && Undo(base, moves, [0, 0])[incoming] == old0
  {
    var base: Trees := map[pkg := old0, incoming := new0];
    var swaps := [Swap(pkg, aside, incoming)];
    var moves := [Move(pkg, aside), Move(incoming, pkg)];
    assert Front(swaps) == [];
    assert Moves(swaps) == moves;
    SwitchResult(base, swaps);
    UndoRestores(base, moves, [0, 0]);
    AsideIsOther(incoming, 0);
    assert Front(moves) == [Move(pkg, aside)] && Front([0, 0]) == [0];
    assert Front([Move(pkg, aside)]) == [] && Front([0]) == [];
    var turned := UndoOne(base, Move(incoming, pkg), 0);
    assert Undo(base, moves, [0, 0]) == Undo(turned, [Move(pkg, aside)], [0]);
    assert Undo(turned, [Move(pkg, aside)], [0]) == UndoOne(turned, Move(pkg, aside), 0);
  }

  // ---------- what reaches the disk, one atomic step at a time ----------

  datatype Process = Process(pid: nat, start: string)

  datatype Journal = Journal(kind: string, owner: Process, moves: seq<Move>)

  /** `<state>/update-journal.json`: it is created empty, and then written through a rename. */
  datatype JournalFile = Absent | Empty | Written(journal: Journal)

  datatype Disk = Disk(fs: Trees, file: JournalFile)

  datatype Op = CreateJournal | PersistJournal(journal: Journal) | RemoveJournal | RenameTree(from: Path, to: Path)

  function Do(d: Disk, op: Op): Disk
  {
    match op
    case CreateJournal => d.(file := Empty)
    case PersistJournal(j) => d.(file := Written(j))
    case RemoveJournal => d.(file := Absent)
    case RenameTree(from, to) => if from in d.fs then d.(fs := Moved(d.fs, from, to)) else d
  }

  /** The disk a crash leaves behind after these steps. */
  function Replay(d: Disk, ops: seq<Op>): Disk
  {
    if ops == [] then d else Do(Replay(d, Front(ops)), Last(ops))
  }

  /** The steps of a switch: before every rename, the journal with that rename in it. */
  function SwitchOps(j: Journal, moves: seq<Move>): (ops: seq<Op>)
    ensures |ops| == 2 * |moves|
  {
    if moves == [] then []
    else
      SwitchOps(j, Front(moves)) + [PersistJournal(j.(moves := moves)), RenameTree(Last(moves).from, Last(moves).to)]
  }

  /** The steps of a recovery that finds `moves` in the journal, up to the emptied journal. */
  function UndoOps(fs: Trees, moves: seq<Move>, clock: seq<nat>): seq<Op>
    requires |clock| == |moves|
    decreases moves
  {
    if moves == [] then []
    else
      UndoOneOps(fs, Last(moves), Last(clock))
          + UndoOps(UndoOne(fs, Last(moves), Last(clock)), Front(moves), Front(clock))
  }

  function UndoOneOps(fs: Trees, m: Move, now: nat): seq<Op>
  {
    if m.to !in fs then []
    else if m.from !in fs then [RenameTree(m.to, m.from)]
    else if Aside(m.from, now) in fs then []
    else
      var cleared := Moved(fs, m.from, Aside(m.from, now));
      [RenameTree(m.from, Aside(m.from, now))] + (if m.to in cleared then [RenameTree(m.to, m.from)] else [])
  }

  lemma {:induction false} SwitchOpsPrefix(base: Trees, j: Journal, moves: seq<Move>, k: nat)
    requires k <= 2 * |moves| && Apply(base, moves).Some?
    ensures Apply(base, moves[..k / 2]).Some?
    ensures Replay(Disk(base, Written(j.(moves := []))), SwitchOps(j, moves)[..k])
         == Disk(Apply(base, moves[..k / 2]).value, Written(j.(moves := moves[..(k + 1) / 2])))
  {
    hide Apply, SwitchOps;
    ApplyPrefix(base, moves, k / 2);
    var ops := SwitchOps(j, moves)[..k];
    if k == 0 {
      ApplyNothing(base);
      assert ops == [] && moves[..0] == [];
    } else {
      var i := (k - 1) / 2;
      SwitchOpsPrefix(base, j, moves, k - 1);
      SwitchOpsAt(j, moves, i);
      assert Front(ops) == SwitchOps(j, moves)[..k - 1];
      if k % 2 == 0 {
        ApplyPrefix(base, moves, i + 1);
        ApplyLast(base, moves, i);
      }
    }
  }

  lemma ApplyLast(base: Trees, moves: seq<Move>, i: nat)
    requires i < |moves| && Apply(base, moves[..i + 1]).Some?
    ensures Apply(base, moves[..i]).Some?
    ensures Rename(Apply(base, moves[..i]).value, moves[i].from, moves[i].to) == Apply(base, moves[..i + 1])
  {
    assert Front(moves[..i + 1]) == moves[..i];
  }

  /** The recovery theorem. A switch of any number of packages is killed at any point, before or
      after any journal write or rename: the journal on disk is readable, and one complete undo of
      it restores every path to exactly what it held before the first move. */
  lemma CrashAnywhere(base: Trees, swaps: seq<Swap>, j: Journal, k: nat, clock: seq<nat>)
    requires Ready(base, swaps) && k <= 2 * |Moves(swaps)|
    requires |clock| == (k + 1) / 2
    ensures var d := Replay(Disk(base, Written(j.(moves := []))), SwitchOps(j, Moves(swaps))[..k]);
            && d.file == Written(j.(moves := Moves(swaps)[..(k + 1) / 2]))
            && Undo(d.fs, d.file.journal.moves, clock) == base
  {
    hide Moves, Replay, SwitchOps, Undo, Ready;
    SwitchLayout(base, swaps, 2 * |swaps|);
    assert Moves(swaps)[..2 * |swaps|] == Moves(swaps);
    SwitchOpsPrefix(base, j, Moves(swaps), k);
    RecoveryRestores(base, swaps, (k + 1) / 2, k / 2, clock);
  }

  lemma ReplayRename(d: Disk, m: Move, rest: seq<Op>)
    requires m.to in d.fs
    ensures Replay(d, [RenameTree(m.to, m.from)] + rest) == Replay(d.(fs := Moved(d.fs, m.to, m.from)), rest)
  {
    ReplayAppend(d, [RenameTree(m.to, m.from)], rest);
    assert Front([RenameTree(m.to, m.from)]) == [];
  }

  lemma {:induction false} ReplayAppend(d: Disk, a: seq<Op>, b: seq<Op>)
    ensures Replay(d, a + b) == Replay(Replay(d, a), b)
  {
    if b == [] {
      assert a + b == a;
    } else {
      assert Front(a + b) == a + Front(b);
      ReplayAppend(d, a, Front(b));
    }
  }

  /** Undoing performed moves takes one rename for each, and after any number of them the trees are
      those with that many moves fewer. */
  lemma {:induction false} UndoOpsPrefix(base: Trees, moves: seq<Move>, clock: seq<nat>, file: JournalFile, k: nat)
    requires |clock| == |moves| && Apply(base, moves).Some?
    ensures |UndoOps(Apply(base, moves).value, moves, clock)| == |moves|
    ensures k <= |moves| ==>
              && Apply(base, moves[..|moves| - k]).Some?
              && Replay(Disk(Apply(base, moves).value, file), UndoOps(Apply(base, moves).value, moves, clock)[..k])
                 == Disk(Apply(base, moves[..|moves| - k]).value, file)
    decreases moves
  {
    hide Replay, UndoOps;
    var fs := Apply(base, moves).value;
    if moves == [] {
      NothingToReplay(fs, file, clock);
      assert moves[..0] == moves;
    } else {
      var m, before := Last(moves), Apply(base, Front(moves)).value;
      assert Moved(Moved(before, m.from, m.to), m.to, m.from) == before;
      FirstUndoOp(fs, moves, clock);
      var rest := UndoOps(before, Front(moves), Front(clock));
      if k == 0 {
        UndoOpsPrefix(base, Front(moves), Front(clock), file, 0);
        assert moves[..|moves|] == moves;
        ReplayNothing(Disk(fs, file));
      } else {
        UndoOpsPrefix(base, Front(moves), Front(clock), file, k - 1);
        if k <= |moves| {
          assert ([RenameTree(m.to, m.from)] + rest)[..k] == [RenameTree(m.to, m.from)] + rest[..k - 1];
          ReplayRename(Disk(fs, file), m, rest[..k - 1]);
          assert Front(moves)[..|moves| - k] == moves[..|moves| - k];
        }
      }
    }
  }

  lemma NothingToReplay(fs: Trees, file: JournalFile, clock: seq<nat>)
    requires clock == []
    ensures UndoOps(fs, [], clock) == [] && Replay(Disk(fs, file), []) == Disk(fs, file)
  {
  }

  lemma OneEntryReplays(fs: Trees, m: Move, now: nat, file: JournalFile)
    ensures Replay(Disk(fs, file), UndoOneOps(fs, m, now)) == Disk(UndoOne(fs, m, now), file)
  {
    hide Aside, Replay;
    var first, second := RenameTree(m.from, Aside(m.from, now)), RenameTree(m.to, m.from);
    ReplayTwo(Disk(fs, file), first, second);
    ReplayTwo(Disk(fs, file), second, second);
    ReplayNothing(Disk(fs, file));
  }

  lemma ReplayTwo(d: Disk, a: Op, b: Op)
    ensures Replay(d, [a]) == Do(d, a) && Replay(d, [a] + [b]) == Do(Do(d, a), b) && Replay(d, [a] + []) == Do(d, a)
  {
    hide Do;
    assert Front([a]) == [] && Front([a] + [b]) == [a] && [a] + [] == [a];
  }

  /** From any disk, whatever stands in the way: all the steps of a recovery come to the undo of its journal. */
  lemma {:induction false} UndoOpsAre(fs: Trees, moves: seq<Move>, clock: seq<nat>, file: JournalFile)
    requires |clock| == |moves|
    ensures Replay(Disk(fs, file), UndoOps(fs, moves, clock)) == Disk(Undo(fs, moves, clock), file)
    decreases moves
  {
    hide Replay, UndoOne, UndoOneOps;
    if moves == [] {
      ReplayNothing(Disk(fs, file));
    } else {
      var m, now := Last(moves), Last(clock);
      OneEntryReplays(fs, m, now, file);
      UndoOpsAre(UndoOne(fs, m, now), Front(moves), Front(clock), file);
      ReplayAppend(Disk(fs, file), UndoOneOps(fs, m, now), UndoOps(UndoOne(fs, m, now), Front(moves), Front(clock)));
    }
  }

  lemma ReplayNothing(d: Disk)
    ensures Replay(d, []) == d
  {
  }

  lemma FirstUndoOp(fs: Trees, moves: seq<Move>, clock: seq<nat>)
    requires |clock| == |moves| > 0 && Last(moves).to in fs && Last(moves).from !in fs
    ensures UndoOps(fs, moves, clock)
         == [RenameTree(Last(moves).to, Last(moves).from)]
            + UndoOps(Moved(fs, Last(moves).to, Last(moves).from), Front(moves), Front(clock))
  {
  }

  lemma {:induction false} UnperformedOps(fs: Trees, moves: seq<Move>, rest: seq<Move>, clock: seq<nat>,
      later: seq<nat>)
    requires |clock| == |moves| && |later| == |rest| && forall k :: 0 <= k < |rest| ==> rest[k].to !in fs
    ensures UndoOps(fs, moves + rest, clock + later) == UndoOps(fs, moves, clock)
    decreases rest
  {
    if rest == [] {
      assert moves + rest == moves && clock + later == clock;
    } else {
      assert Front(moves + rest) == moves + Front(rest) && Front(clock + later) == clock + Front(later);
      UnperformedOps(fs, moves, Front(rest), clock, Front(later));
      assert [] + UndoOps(fs, moves, clock) == UndoOps(fs, moves, clock);
    }
  }

  /** The recovery itself killed at any point: of a switch with `n` moves journaled and `done` of them
      performed, after any number of the renames of the undo, the complete recovery that follows is
      exact if and only if no package had both its moves undone. */
  lemma RecoveryKilledAnywhere(base: Trees, swaps: seq<Swap>, j: Journal, n: nat, done: nat, first: seq<nat>, k: nat,
      second: seq<nat>)
    requires Ready(base, swaps) && done <= n <= done + 1 && n <= 2 * |swaps|
    requires |first| == n && |second| == n && AsidesFree(base, swaps, second)
    ensures Apply(base, Moves(swaps)[..done]).Some?
    ensures var fs, moves := Apply(base, Moves(swaps)[..done]).value, Moves(swaps)[..n];
            var ops := UndoOps(fs, moves, first);
            && |ops| == done
            && (k <= done ==>
                  var killed := Replay(Disk(fs, Written(j.(moves := moves))), ops[..k]);
                  && killed.file == Written(j.(moves := moves))
                  && (Undo(killed.fs, moves, second) == base <==> Resumable(n, done - k)))
  {
    hide Moves, Undo, UndoOps, Replay, Apply, Ready, AsidesFree;
    var all := Moves(swaps);
    SwitchLayout(base, swaps, done);
    var fs := Apply(base, all[..done]).value;
    if done < n { NotThere(base, swaps, done, done); }
    assert all[..n] == all[..done] + all[done..n] && first == first[..done] + first[done..];
    UnperformedOps(fs, all[..done], all[done..n], first[..done], first[done..]);
    UndoOpsPrefix(base, all[..done], first[..done], Written(j.(moves := all[..n])), k);
    if k <= done {
      assert all[..done][..done - k] == all[..done - k];
      RecoveryExact(base, swaps, n, done - k, second);
    }
  }

  // ---------- the updater ----------

  class Updater {
    const self: Process
    var fs: Trees
    var file: JournalFile
    var journal: Option<Journal> // the module variable `journal`
    ghost var log: seq<Op>       // every step that reached the disk

    constructor (self: Process, fs: Trees, file: JournalFile)
      ensures this.self == self && this.fs == fs && this.file == file && journal == None && log == []
    {
      this.self, this.fs, this.file, this.journal, this.log := self, fs, file, None, [];
    }

    method WriteJournal()
      requires journal.Some?
      modifies this`file, this`log
      ensures file == Written(journal.value) && log == old(log) + [PersistJournal(journal.value)]
    {
      file := Written(journal.value);
      log := log + [PersistJournal(journal.value)];
    }

    /** Exclusive creation: nothing changes when a journal is already there. */
    method Lock(kind: string) returns (ok: bool)
      modifies this`file, this`journal, this`log
      ensures ok <==> old(file) == Absent
      ensures !ok ==> file == old(file) && journal == old(journal) && log == old(log)
      ensures ok ==> var j := Journal(kind, self, []);
                     journal == Some(j) && file == Written(j) && log == old(log) + [CreateJournal, PersistJournal(j)]
    {
      if file != Absent { return false; }
      file := Empty;
      log := log + [CreateJournal];
      journal := Some(Journal(kind, self, []));
      WriteJournal();
      ok := true;
    }

    method Unlock()
      modifies this`file, this`journal, this`log
      ensures file == Absent && journal == None && log == old(log) + [RemoveJournal]
    {
      journal := None;
      file := Absent;
      log := log + [RemoveJournal];
    }

    /** `move`: journaled first, then renamed. `fault` is a rename the system refuses. */
    method MoveTree(from: Path, to: Path, fault: bool) returns (ok: bool)
      requires journal.Some?
      modifies this`fs, this`file, this`journal, this`log
      ensures ok <==> !fault && Rename(old(fs), from, to).Some?
      ensures journal == Some(old(journal.value).(moves := old(journal.value).moves + [Move(from, to)]))
      ensures file == Written(journal.value)
      ensures fs == if ok then Moved(old(fs), from, to) else old(fs)
      ensures log == old(log) + [PersistJournal(journal.value)] + if ok then [RenameTree(from, to)] else []
    {
      journal := Some(journal.value.(moves := journal.value.moves + [Move(from, to)]));
      WriteJournal();
      if fault || Rename(fs, from, to).None? { return false; }
      fs := Moved(fs, from, to);
      log := log + [RenameTree(from, to)];
      ok := true;
    }

    /** One journaled move taken back: a tree that stands in the way is put aside, never overwritten. */
    method UndoMove(m: Move, now: nat)
      modifies this`fs, this`log
      ensures fs == UndoOne(old(fs), m, now) && log == old(log) + UndoOneOps(old(fs), m, now)
      ensures Stored(fs) == Stored(old(fs))
    {
      UndoOneConserves(fs, m, now);
      if m.to !in fs { return; }
      if m.from in fs {
        var aside := Aside(m.from, now);
        if aside in fs { return; }
        fs := Moved(fs, m.from, aside);
        log := log + [RenameTree(m.from, aside)];
        if m.to !in fs { return; }
      }
      fs := Moved(fs, m.to, m.from);
      log := log + [RenameTree(m.to, m.from)];
    }

    /** `undo`: the loop over the journal in reverse, and the emptied journal at the end. */
    method UndoAll(clock: seq<nat>)
      requires journal.Some? && |clock| == |journal.value.moves|
      modifies this`fs, this`file, this`journal, this`log
      ensures fs == Undo(old(fs), old(journal.value).moves, clock)
      ensures Stored(fs) == Stored(old(fs))
      ensures journal == Some(old(journal.value).(moves := [])) && file == Written(journal.value)
      ensures log == old(log) + UndoOps(old(fs), old(journal.value).moves, clock) + [PersistJournal(journal.value)]
    {
      hide Undo, UndoOps, UndoOne, UndoOneOps, Stored;
      var moves := journal.value.moves;
      var i := |moves|;
      assert moves[..i] == moves && clock[..i] == clock;
      while i > 0
        invariant i <= |moves|
        invariant Undo(fs, moves[..i], clock[..i]) == Undo(old(fs), moves, clock)
        invariant log + UndoOps(fs, moves[..i], clock[..i]) == old(log) + UndoOps(old(fs), moves, clock)
        invariant Stored(fs) == Stored(old(fs))
        invariant journal == old(journal)
      {
        i := i - 1;
        var m, now := moves[i], clock[i];
        UndoNext(fs, moves, clock, i);
        ghost var ops := UndoOneOps(fs, m, now);
        ghost var rest := UndoOps(UndoOne(fs, m, now), moves[..i], clock[..i]);
        Assoc(log, ops, rest);
        UndoMove(m, now);
      }
      UndoNothing(fs, moves[..0], clock[..0]);
      journal := Some(journal.value.(moves := []));
      WriteJournal();
    }

    /** `abort`: the undo, and the lock given up. */
    method Abort(clock: seq<nat>)
      requires journal.Some? && |clock| == |journal.value.moves|
      modifies this`fs, this`file, this`journal, this`log
      ensures fs == Undo(old(fs), old(journal.value).moves, clock) && Stored(fs) == Stored(old(fs))
      ensures file == Absent && journal == None
    {
      UndoAll(clock);
      Unlock();
    }

    /** The first `n` of all moves are done, and the journal and the disk say so; `start` is the log
        before the first of them. */
    ghost predicate Reached(base: Trees, j: Journal, all: seq<Move>, n: nat, start: seq<Op>)
      requires n <= |all|
      reads this
    {
      && Apply(base, all[..n]) == Some(fs)
      && journal == Some(j.(moves := all[..n])) && file == Written(journal.value)
      && log == start + SwitchOps(j, all)[..2 * n]
    }

    /** The next move: it is journaled, and then performed unless the system refuses it. */
    method NextMove(m: Move, fault: bool, ghost swaps: seq<Swap>, ghost base: Trees, ghost j: Journal, ghost n: nat,
                    ghost start: seq<Op>)
      returns (ok: bool)
      requires Ready(base, swaps) && n < |Moves(swaps)| && m == Moves(swaps)[n]
      requires Reached(base, j, Moves(swaps), n, start)
      modifies this`fs, this`file, this`journal, this`log
      ensures ok <==> !fault
      ensures ok ==> Reached(base, j, Moves(swaps), n + 1, start)
      ensures !ok ==>
                && Apply(base, Moves(swaps)[..n]) == Some(fs)
                && journal == Some(j.(moves := Moves(swaps)[..n + 1])) && file == Written(journal.value)
                && log == start + SwitchOps(j, Moves(swaps))[..2 * n + 1]
    {
      hide Moves, SwitchOps, Apply, Ready;
      StepAt(base, swaps, j, n);
      ok := MoveTree(m.from, m.to, fault);
    }

    /** The switch loop of the update and of the rollback, from a freshly taken lock: two moves for
        every package. `faultAt` is the first rename the system refuses, if any. */
    method SwitchLoop(swaps: seq<Swap>, faultAt: nat) returns (ok: bool, done: nat)
      requires journal.Some? && journal.value.moves == [] && file == Written(journal.value)
      requires Ready(fs, swaps)
      modifies this`fs, this`file, this`journal, this`log
      ensures ok <==> faultAt >= |Moves(swaps)|
      ensures done == if ok then |Moves(swaps)| else faultAt
      ensures var j, n := old(journal.value), if ok then 2 * done else 2 * done + 1;
              && journal == Some(j.(moves := Moves(swaps)[..(n + 1) / 2])) && file == Written(journal.value)
              && Apply(old(fs), Moves(swaps)[..done]) == Some(fs)
              && log == old(log) + SwitchOps(j, Moves(swaps))[..n]
    {
      hide Moves, SwitchOps, Apply, Ready, Reached;
      ghost var base, j, all, start := fs, journal.value, Moves(swaps), log;
      done := 0;
      NothingReached(j, all, start);
      for i := 0 to |swaps|
        invariant done == 2 * i && faultAt >= done
        invariant Reached(base, j, all, done, start)
      {
        MovesAt(swaps, i);
        var first := NextMove(Move(swaps[i].pkg, swaps[i].aside), faultAt == done, swaps, base, j, done, start);
        if !first { return false, done; }
        done := done + 1;
        var second := NextMove(Move(swaps[i].incoming, swaps[i].pkg), faultAt == done, swaps, base, j, done, start);
        if !second { return false, done; }
        done := done + 1;
      }
      AllReached(base, j, all, start);
      ok := true;
    }

    lemma NothingReached(j: Journal, all: seq<Move>, start: seq<Op>)
      requires journal == Some(j) && j.moves == [] && file == Written(j) && log == start
      ensures Reached(fs, j, all, 0, start)
    {
      ApplyNothing(fs);
    }

    lemma AllReached(base: Trees, j: Journal, all: seq<Move>, start: seq<Op>)
      requires Reached(base, j, all, |all|, start)
      ensures Apply(base, all[..|all|]) == Some(fs)
      ensures journal == Some(j.(moves := all[..|all|])) && file == Written(journal.value)
      ensures log == start + SwitchOps(j, all)[..2 * |all|]
    {
    }

    /** A whole update or rollback from the moment everything is staged: it ends with every package
        switched, or with every path exactly as it was; the lock is free either way. `clock` is
        consulted once for each move that has to be undone. `restartOk` is whether the daemon comes up
        on the new tree, and `intact` whether every package still matches its manifest then, which a
        rollback does not ask. */
    method Switch(swaps: seq<Swap>, faultAt: nat, restartOk: bool, intact: bool, clock: seq<nat>) returns (ok: bool)
      requires journal.Some? && journal.value.moves == [] && file == Written(journal.value)
      requires Ready(fs, swaps) && |clock| == |Moves(swaps)|
      modifies this`fs, this`file, this`journal, this`log
      ensures file == Absent && journal == None
      ensures ok ==> Apply(old(fs), Moves(swaps)) == Some(fs)
      ensures !ok ==> fs == old(fs)
      ensures ok <==> faultAt >= |Moves(swaps)| && restartOk && intact
    {
      hide Moves, SwitchOps, Apply, Ready, Undo;
      var switched, done := SwitchLoop(swaps, faultAt);
      assert Moves(swaps)[..|Moves(swaps)|] == Moves(swaps);
      if !switched || !restartOk || !intact {
        RecoveryRestores(old(fs), swaps, |journal.value.moves|, done, clock[..|journal.value.moves|]);
        Abort(clock[..|journal.value.moves|]);
        return false;
      }
      Unlock();
      ok := true;
    }

    /** `--recover`, once the journal names an updater that is no longer running. A package that is
        missing afterwards, or a daemon that does not come up, leaves the emptied journal behind. */
    method Recover(running: set<Process>, packages: seq<Path>, restartOk: bool, clock: seq<nat>) returns (ok: bool)
      requires file.Written? ==> |clock| == |file.journal.moves|
      modifies this`fs, this`file, this`journal, this`log
      ensures ok ==> old(file).Written? && old(file).journal.owner !in running && file == Absent
      ensures old(file).Written? && old(file).journal.owner !in running ==>
                && fs == Undo(old(fs), old(file).journal.moves, clock)
                && (ok <==> restartOk && forall p :: p in packages ==> Installed(fs, p))
                && (!ok ==> file == Written(old(file).journal.(moves := [])))
      ensures !old(file).Written? || old(file).journal.owner in running ==> !ok && fs == old(fs) && file == old(file)
      ensures Stored(fs) == Stored(old(fs))
    {
      if !file.Written? || file.journal.owner in running { return false; }
      journal := Some(file.journal);
      UndoAll(clock);
      if exists p :: p in packages && !Installed(fs, p) { return false; }
      if !restartOk { return false; }
      Unlock();
      ok := true;
    }
  }

  lemma UndoNext(fs: Trees, moves: seq<Move>, clock: seq<nat>, i: nat)
    requires i < |moves| == |clock|
    ensures Undo(fs, moves[..i + 1], clock[..i + 1]) == Undo(UndoOne(fs, moves[i], clock[i]), moves[..i], clock[..i])
    ensures UndoOps(fs, moves[..i + 1], clock[..i + 1])
         == UndoOneOps(fs, moves[i], clock[i]) + UndoOps(UndoOne(fs, moves[i], clock[i]), moves[..i], clock[..i])
  {
    hide UndoOne, UndoOneOps;
    assert Front(moves[..i + 1]) == moves[..i] && Front(clock[..i + 1]) == clock[..i];
  }

  lemma UndoNothing(fs: Trees, moves: seq<Move>, clock: seq<nat>)
    requires moves == [] && clock == []
    ensures Undo(fs, moves, clock) == fs && UndoOps(fs, moves, clock) == []
  {
  }

  /** `requireInstalled`: the package has a `src/cli.mjs`. */
  predicate Installed(fs: Trees, p: Path)
  {
    p in fs && Lookup(fs[p], ["src", "cli.mjs"]).Some?
  }

  lemma StepAt(base: Trees, swaps: seq<Swap>, j: Journal, k: nat)
    requires Ready(base, swaps) && k < |Moves(swaps)|
    ensures var all := Moves(swaps);
            && Apply(base, all[..k]).Some? && Apply(base, all[..k + 1]).Some?
            && Rename(Apply(base, all[..k]).value, all[k].from, all[k].to) == Apply(base, all[..k + 1])
            && all[..k + 1] == all[..k] + [all[k]]
            && SwitchOps(j, all)[..2 * k + 1] == SwitchOps(j, all)[..2 * k]
               + [PersistJournal(j.(moves := all[..k + 1]))]
            && SwitchOps(j, all)[..2 * k + 2] == SwitchOps(j, all)[..2 * k + 1] + [RenameTree(all[k].from, all[k].to)]
  {
    hide Moves, Ready, SwitchOps;
    SwitchLayout(base, swaps, k);
    SwitchLayout(base, swaps, k + 1);
    assert Front(Moves(swaps)[..k + 1]) == Moves(swaps)[..k];
    SwitchOpsAt(j, Moves(swaps), k);
  }

  lemma {:induction false} SwitchOpsAt(j: Journal, moves: seq<Move>, k: nat)
    requires k < |moves|
    ensures SwitchOps(j, moves)[2 * k] == PersistJournal(j.(moves := moves[..k + 1]))
    ensures SwitchOps(j, moves)[2 * k + 1] == RenameTree(moves[k].from, moves[k].to)
  {
    if k < |moves| - 1 {
      SwitchOpsAt(j, Front(moves), k);
      assert Front(moves)[..k + 1] == moves[..k + 1];
    } else {
      assert moves[..k + 1] == moves;
    }
  }
}
