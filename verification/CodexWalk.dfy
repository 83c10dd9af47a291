/** Which Codex thread ran a command (src/core/codex-identity.mjs): the walk up from the calling
    process, and the bounded search for the thread's rollout file. */
module CodexWalk {
  import opened Sequences
  import opened JsText
  import ReleaseManifest

  const MAX_CODEX_DEPTH: nat := 10

  /** What the kernel keeps of a process: `CODEX_THREAD_ID` as it was at exec, and the executable. */
  datatype Image = Image(variable: Option<string>, executable: Option<string>)

  /** Every process is read at most once. A read that fails gives `None`, and so does a parent that
      is not a number. */
  datatype Processes = Processes(image: int -> Option<Image>, parent: int -> Option<int>)

  // ---------- the ancestors a walk can see ----------

  function Ancestors(w: Processes, pid: Option<int>, seen: set<int>, n: nat): seq<int>
    decreases n
  {
    if n == 0 || pid.None? || pid.value <= 1 || pid.value in seen then []
    else [pid.value] + Ancestors(w, w.parent(pid.value), seen + {pid.value}, n - 1)
  }

  ghost predicate Linked(w: Processes, chain: seq<int>)
  {
    && (forall i :: 0 <= i < |chain| ==> chain[i] > 1)
    && (forall i :: 0 <= i < |chain| - 1 ==> w.parent(chain[i]) == Some(chain[i + 1]))
    && (forall i, j :: 0 <= i < j < |chain| ==> chain[i] != chain[j])
  }

  /** The chain is the way up from `pid`: parent after parent, none of them twice, and it ends only at
      the bound, at a process without a readable parent, at process 1, or where a cycle closes. */
  lemma {:induction false} AncestorsAreParents(w: Processes, pid: Option<int>, seen: set<int>, n: nat)
    ensures var chain := Ancestors(w, pid, seen, n);
            && Linked(w, chain) && |chain| <= n
            && (forall i :: 0 <= i < |chain| ==> chain[i] !in seen)
            && (chain != [] ==> pid == Some(chain[0]))
            && (|chain| < n ==>
                  var next := if chain == [] then pid else w.parent(Last(chain));
                  next.None? || next.value <= 1 || next.value in seen || next.value in chain)
    decreases n
  {
    var chain := Ancestors(w, pid, seen, n);
    if chain != [] {
      AncestorsAreParents(w, w.parent(pid.value), seen + {pid.value}, n - 1);
      var rest := Ancestors(w, w.parent(pid.value), seen + {pid.value}, n - 1);
      assert chain == [pid.value] + rest;
      assert rest != [] ==> Last(rest) == Last(chain);
      forall i | 0 <= i < |rest| ensures rest[i] != pid.value && rest[i] !in seen {}
    }
  }

  // ---------- what is looked for ----------

  /** `path.basename` */
  function Basename(path: string): string
  {
    if path == "" then ""
    else if Last(path) == '/' then Basename(Front(path))
    else AfterSlash(path)
  }

  function AfterSlash(path: string): string
  {
    if path == "" || Last(path) == '/' then "" else AfterSlash(Front(path)) + [Last(path)]
  }

  /** A path cut into a directory up to its slash, a name, and slashes at the very end. */
  predicate Cut(path: string, dir: string, name: string, slashes: string)
  {
    && path == dir + name + slashes
    && name != "" && '/' !in name
    && (dir == "" || dir[|dir| - 1] == '/')
    && forall k :: 0 <= k < |slashes| ==> slashes[k] == '/'
  }

  ghost predicate LastComponent(path: string, name: string)
  {
    exists dir, slashes :: Cut(path, dir, name, slashes)
  }

  lemma {:induction false} AfterSlashIs(dir: string, name: string)
    requires '/' !in name && (dir == "" || Last(dir) == '/')
    ensures AfterSlash(dir + name) == name
  {
    if name == "" {
      assert dir + name == dir;
    } else {
      assert Front(dir + name) == dir + Front(name);
      AfterSlashIs(dir, Front(name));
    }
  }

  lemma {:induction false} AfterSlashSplits(path: string) returns (dir: string)
    ensures path == dir + AfterSlash(path) && '/' !in AfterSlash(path) && (dir == "" || dir[|dir| - 1] == '/')
  {
    if path == "" || Last(path) == '/' {
      dir := path;
    } else {
      dir := AfterSlashSplits(Front(path));
    }
  }

  lemma {:induction false} SlashesDoNotCount(path: string, slashes: string)
    requires forall k :: 0 <= k < |slashes| ==> slashes[k] == '/'
    ensures Basename(path + slashes) == Basename(path)
  {
    if slashes == "" {
      assert path + slashes == path;
    } else {
      assert Front(path + slashes) == path + Front(slashes);
      SlashesDoNotCount(path, Front(slashes));
    }
  }

  lemma CutGives(path: string, dir: string, name: string, slashes: string)
    requires Cut(path, dir, name, slashes)
    ensures Basename(path) == name
  {
    SlashesDoNotCount(dir + name, slashes);
    AfterSlashIs(dir, name);
    assert Last(dir + name) == Last(name);
  }

  lemma {:induction false} BasenameCuts(path: string) returns (dir: string, slashes: string)
    ensures Basename(path) != "" ==> Cut(path, dir, Basename(path), slashes)
  {
    hide AfterSlash;
    dir, slashes := "", "";
    if path != "" && Last(path) == '/' {
      dir, slashes := BasenameCuts(Front(path));
      slashes := slashes + "/";
      if Basename(path) != "" { assert path == Front(path) + "/" == dir + Basename(path) + slashes; }
    } else if path != "" {
      dir := AfterSlashSplits(path);
      assert path == dir + AfterSlash(path) + "";
    }
  }

  /** `Basename` gives the last component, if there is one. */
  lemma BasenameIs(path: string, name: string)
    requires name != ""
    ensures Basename(path) == name <==> LastComponent(path, name)
  {
    hide Basename, Cut;
    var dir, slashes := BasenameCuts(path);
    if LastComponent(path, name) {
      var d, e :| Cut(path, d, name, e);
      CutGives(path, d, name, e);
    }
  }

  /** As paths are written: a directory, a slash and a name. Slashes at the end do not count. */
  lemma BasenameOfPath(dir: string, name: string, slashes: string)
    requires name != "" && '/' !in name && forall k :: 0 <= k < |slashes| ==> slashes[k] == '/'
    ensures Basename(dir + "/" + name + slashes) == name && Basename(name + slashes) == name
  {
    hide Basename;
    var folder := dir + "/";
    assert "" + name + slashes == name + slashes;
    assert folder[|folder| - 1] == '/';
    CutGives(folder + name + slashes, folder, name, slashes);
    CutGives(name + slashes, "", name, slashes);
  }

  predicate Carries(w: Processes, pid: int)
  {
    w.image(pid).Some? && w.image(pid).value.variable.Some? && w.image(pid).value.variable.value != ""
  }

  function ThreadOf(w: Processes, pid: int): string
    requires Carries(w, pid)
  {
    Lower(w.image(pid).value.variable.value)
  }

  predicate IsHost(w: Processes, pid: int)
  {
    w.image(pid).Some? && w.image(pid).value.executable.Some?
        && Basename(w.image(pid).value.executable.value) == "codex"
  }

  ghost predicate NearestCarrier(w: Processes, chain: seq<int>, c: nat)
  {
    c < |chain| && Carries(w, chain[c]) && forall k :: 0 <= k < c ==> !Carries(w, chain[k])
  }

  ghost predicate NearestHost(w: Processes, chain: seq<int>, c: nat, h: nat)
  {
    c <= h < |chain| && IsHost(w, chain[h]) && forall k :: c <= k < h ==> !IsHost(w, chain[k])
  }

  ghost predicate NoHost(w: Processes, chain: seq<int>, c: nat)
  {
    forall k :: c <= k < |chain| ==> !IsHost(w, chain[k])
  }

  datatype Resolution =
    | Proven(threadId: string, carrierPid: int, carrierProcStart: string, depth: nat, hostDepth: nat)
    | NoThread
    | Malformed
    | HostNotAncestor(threadId: string)
    | Unregistered(threadId: string)
    | IdentityChanged(threadId: string)

  /** What the two reads of the carrier's start time give, and whether the thread has a rollout. */
  datatype Checks = Checks(before: Option<string>, after: Option<string>, rollout: string -> bool)

  /** What a resolution says about the chain. */
  ghost predicate Says(w: Processes, chain: seq<int>, checks: Checks, r: Resolution)
  {
    match r
    case NoThread => forall k :: 0 <= k < |chain| ==> !Carries(w, chain[k])
    case Malformed => exists c: nat :: NearestCarrier(w, chain, c) && !IsLowerUuid(ThreadOf(w, chain[c]))
    case HostNotAncestor(t) => exists c: nat :: NearestThread(w, chain, c, t) && NoHost(w, chain, c)
    case Unregistered(t) =>
      exists c: nat, h: nat :: NearestThread(w, chain, c, t) && NearestHost(w, chain, c, h) && !checks.rollout(t)
    case IdentityChanged(t) =>
      && checks.rollout(t) && !Steady(checks)
      && exists c: nat, h: nat :: NearestThread(w, chain, c, t) && NearestHost(w, chain, c, h)
    case Proven(t, carrier, start, c, h) =>
      && NearestThread(w, chain, c, t) && NearestHost(w, chain, c, h)
      && carrier == chain[c] && checks.rollout(t) && Steady(checks) && checks.before == Some(start)
  }

  ghost predicate NearestThread(w: Processes, chain: seq<int>, c: nat, t: string)
  {
    NearestCarrier(w, chain, c) && IsLowerUuid(ThreadOf(w, chain[c])) && t == ThreadOf(w, chain[c])
  }

  predicate Steady(checks: Checks)
  {
    checks.before.Some? && checks.before == checks.after
  }

  /** `resolveCodexThread` */
  method Resolve(w: Processes, checks: Checks, pid: int, maxDepth: nat) returns (r: Resolution)
    ensures Says(w, Ancestors(w, Some(pid), {}, maxDepth + 1), checks, r)
  {
    hide IsLowerUuid, Lower, Basename;
    ghost var chain := Ancestors(w, Some(pid), {}, maxDepth + 1);
    var current := Some(pid);
    var threadId: Option<string> := None;
    var carrier, carrierDepth, hostDepth: Option<nat> := pid, 0, None;
    var seen: set<int> := {};
    var depth := 0;
    while depth <= maxDepth
      invariant depth <= |chain| && depth <= maxDepth + 1
      invariant chain[depth..] == Ancestors(w, current, seen, maxDepth + 1 - depth)
      invariant hostDepth == None
      invariant threadId.None? ==> forall k :: 0 <= k < depth ==> !Carries(w, chain[k])
      invariant threadId.Some? ==> carrierDepth < depth && carrier == chain[carrierDepth]
                                   && NearestThread(w, chain, carrierDepth, threadId.value)
                                   && forall k :: carrierDepth <= k < depth ==> !IsHost(w, chain[k])
      decreases maxDepth + 1 - depth
    {
      if current.None? || current.value <= 1 || current.value in seen { break; }
      assert chain[depth..][0] == chain[depth] == current.value;
      assert chain[depth + 1..] == chain[depth..][1..];
      seen := seen + {current.value};
      var image := w.image(current.value);
      if image.Some? {
        if threadId.None? && image.value.variable.Some? && image.value.variable.value != "" {
          var value := Lower(image.value.variable.value);
          assert NearestCarrier(w, chain, depth);
          if !IsLowerUuid(value) { return Malformed; }
          threadId, carrier, carrierDepth := Some(value), current.value, depth;
        }
        if threadId.Some? && image.value.executable.Some? && Basename(image.value.executable.value) == "codex" {
          hostDepth := Some(depth);
          assert NearestHost(w, chain, carrierDepth, depth);
          break;
        }
      }
      current := w.parent(current.value);
      depth := depth + 1;
    }
    if threadId.None? { return NoThread; }
    if hostDepth.None? {
      assert depth == |chain|;
      assert NoHost(w, chain, carrierDepth);
      return HostNotAncestor(threadId.value);
    }
    if !checks.rollout(threadId.value) { return Unregistered(threadId.value); }
    if checks.before.None? || checks.before != checks.after { return IdentityChanged(threadId.value); }
    r := Proven(threadId.value, carrier, checks.before.value, carrierDepth, hostDepth.value);
  }

  lemma CarrierOf(w: Processes, chain: seq<int>, checks: Checks, r: Resolution) returns (c: nat)
    requires Says(w, chain, checks, r) && !r.NoThread?
    ensures NearestCarrier(w, chain, c) && (r.Malformed? <==> !IsLowerUuid(ThreadOf(w, chain[c])))
    ensures !r.Malformed? ==> r.threadId == ThreadOf(w, chain[c]) && (r.HostNotAncestor? <==> NoHost(w, chain, c))
    ensures r.Unregistered? ==> !checks.rollout(r.threadId)
    ensures r.IdentityChanged? ==> checks.rollout(r.threadId) && !Steady(checks)
    ensures r.Proven? ==> r.depth == c && r.carrierPid == chain[c] && NearestHost(w, chain, c, r.hostDepth)
                          && checks.rollout(r.threadId) && Steady(checks) && checks.before == Some(r.carrierProcStart)
  {
    hide Carries, IsHost, IsLowerUuid, ThreadOf;
    match r
    case Malformed => c :| NearestCarrier(w, chain, c) && !IsLowerUuid(ThreadOf(w, chain[c]));
    case HostNotAncestor(t) => c :| NearestThread(w, chain, c, t) && NoHost(w, chain, c);
    case Unregistered(t) =>
      var h: nat;
      c, h :| NearestThread(w, chain, c, t) && NearestHost(w, chain, c, h) && !checks.rollout(t);
    case IdentityChanged(t) => var h: nat; c, h :| NearestThread(w, chain, c, t) && NearestHost(w, chain, c, h);
    case Proven(t, carrier, start, depth, h) => c := depth;
  }

  /** There is one right answer for every chain. */
  lemma OneAnswer(w: Processes, chain: seq<int>, checks: Checks, a: Resolution, b: Resolution)
    requires Says(w, chain, checks, a) && Says(w, chain, checks, b)
    ensures a == b
  {
    hide Carries, IsHost, IsLowerUuid, ThreadOf, Says;
    if a.NoThread? || b.NoThread? {
      NoThreadAlone(w, chain, checks, a, b);
    } else {
      var c := CarrierOf(w, chain, checks, a);
      var d := CarrierOf(w, chain, checks, b);
      assert c == d;
    }
  }

  lemma NoThreadAlone(w: Processes, chain: seq<int>, checks: Checks, a: Resolution, b: Resolution)
    requires Says(w, chain, checks, a) && Says(w, chain, checks, b) && (a.NoThread? || b.NoThread?)
    ensures a == b
  {
    hide Carries, IsHost, IsLowerUuid, ThreadOf;
    var none := a.NoThread? && b.NoThread?;
    if !none {
      var c := CarrierOf(w, chain, checks, if a.NoThread? then b else a);
    }
  }

  /** A thread is proven exactly when the nearest ancestor that carries the variable is well formed, a
      `codex` executable sits at or above it within the bound, the thread is registered, and the
      carrier's start time stayed what it was. */
  lemma ProvenIff(w: Processes, chain: seq<int>, checks: Checks, r: Resolution)
    requires Says(w, chain, checks, r)
    ensures r.Proven? <==>
            exists c: nat, text, h: nat, path ::
              && FirstCarrier(w, chain, c, text) && IsLowerUuid(Lower(text)) && c <= h < |chain|
              && RunsFrom(w, chain[h], path) && LastComponent(path, "codex")
              && checks.rollout(Lower(text)) && checks.before.Some? && checks.before == checks.after
  {
    hide Carries, IsHost, IsLowerUuid, ThreadOf, LastComponent, RunsFrom, Lower, FirstCarrier;
    HostsAreCodex(w);
    CarriersCarry(w, chain);
    if c: nat, text, h: nat, path :|
      && FirstCarrier(w, chain, c, text) && IsLowerUuid(Lower(text)) && c <= h < |chain|
      && RunsFrom(w, chain[h], path) && LastComponent(path, "codex")
      && checks.rollout(Lower(text)) && checks.before.Some? && checks.before == checks.after
    {
      var n := FirstHost(w, chain, c, h);
      OneAnswer(w, chain, checks, r, Proven(Lower(text), chain[c], checks.before.value, c, n));
    }
  }

  /** The variable has a value here, and none, or an empty one, in any process below. */
  ghost predicate FirstCarrier(w: Processes, chain: seq<int>, c: nat, text: string)
  {
    && c < |chain| && text != "" && w.image(chain[c]).Some? && w.image(chain[c]).value.variable == Some(text)
    && forall k :: 0 <= k < c && w.image(chain[k]).Some? ==> w.image(chain[k]).value.variable in {None, Some("")}
  }

  lemma CarriersCarry(w: Processes, chain: seq<int>)
    ensures forall c: nat, t :: NearestThread(w, chain, c, t)
              <==> exists text :: FirstCarrier(w, chain, c, text) && t == Lower(text) && IsLowerUuid(t)
  {
    hide Lower, IsLowerUuid;
    forall c: nat, t
      ensures NearestThread(w, chain, c, t)
         <==> exists text :: FirstCarrier(w, chain, c, text) && t == Lower(text) && IsLowerUuid(t)
    {
      if NearestThread(w, chain, c, t) { assert FirstCarrier(w, chain, c, w.image(chain[c]).value.variable.value); }
    }
  }

  predicate RunsFrom(w: Processes, pid: int, path: string)
  {
    w.image(pid).Some? && w.image(pid).value.executable == Some(path)
  }

  /** The host is a process whose executable has `codex` as the last component of its path. */
  lemma HostsAreCodex(w: Processes)
    ensures forall pid ::
              IsHost(w, pid) <==> exists path :: RunsFrom(w, pid, path) && LastComponent(path, "codex")
  {
    hide LastComponent, Basename;
    forall pid ensures IsHost(w, pid) <==> exists path :: RunsFrom(w, pid, path) && LastComponent(path, "codex") {
      forall path ensures Basename(path) == "codex" <==> LastComponent(path, "codex") { BasenameIs(path, "codex"); }
      if IsHost(w, pid) { assert RunsFrom(w, pid, w.image(pid).value.executable.value); }
    }
  }

  lemma {:induction false} FirstHost(w: Processes, chain: seq<int>, c: nat, h: nat) returns (n: nat)
    requires c <= h < |chain| && IsHost(w, chain[h])
    ensures NearestHost(w, chain, c, n)
    decreases h - c
  {
    hide IsHost;
    if IsHost(w, chain[c]) {
      n := c;
    } else {
      n := FirstHost(w, chain, c + 1, h);
    }
  }

  // ---------- the rollout search ----------

  datatype Item = Regular(mine: bool) | Special | Sealed | Folder(items: seq<Named>)

  datatype Named = Named(name: string, item: Item)

  function InsertNamed(x: Named, items: seq<Named>): seq<Named>
  {
    if items == [] || ReleaseManifest.Before(items[0].name, x.name) then [x] + items
    else [items[0]] + InsertNamed(x, items[1..])
  }

  /** `names.sort().reverse()` */
  function Newest(items: seq<Named>): seq<Named>
  {
    if items == [] then [] else InsertNamed(items[0], Newest(items[1..]))
  }

  predicate IsNumber(name: string)
  {
    2 <= |name| <= 4 && forall k :: 0 <= k < |name| ==> '0' <= name[k] <= '9'
  }

  predicate EndsWith(s: string, suffix: string)
  {
    |suffix| <= |s| && s[|s| - |suffix|..] == suffix
  }

  predicate IsRollout(x: Named, thread: string)
  {
    "rollout-" <= x.name && EndsWith(x.name, "-" + thread + ".jsonl") && x.item == Regular(true)
  }

  predicate DayHas(day: Item, thread: string)
  {
    day.Folder? && exists k :: 0 <= k < |day.items| && IsRollout(day.items[k], thread)
  }

  /** The day folders below a folder, in the order the search meets them: newest first. */
  function Days(item: Item, depth: nat): seq<Item>
    requires depth <= 2
    decreases 2 - depth, 1, 0
  {
    if item.Folder? then DaysOf(Newest(item.items), depth) else []
  }

  function DaysOf(items: seq<Named>, depth: nat): seq<Item>
    requires depth <= 2
    decreases 2 - depth, 0, |items|
  {
    if items == [] then []
    else
      (if !IsNumber(items[0].name) then [] else if depth == 2 then [items[0].item] else Days(items[0].item, depth + 1))
      + DaysOf(items[1..], depth)
  }

  /** The first `room` days hold a rollout of the thread. */
  ghost predicate FoundIn(days: seq<Item>, thread: string, room: int)
  {
    exists k :: 0 <= k < |days| && k < room && DayHas(days[k], thread)
  }

  class Search {
    const thread: string
    const maxDays: nat
    var scanned: nat

    constructor (thread: string, maxDays: nat)
      ensures this.thread == thread && this.maxDays == maxDays && scanned == 0
    {
      this.thread, this.maxDays, this.scanned := thread, maxDays, 0;
    }

    method WalkDay(day: Item) returns (found: bool)
      ensures found <==> DayHas(day, thread)
    {
      if !day.Folder? { return false; }
      var items := Newest(day.items);
      NewestHas(day.items);
      for k := 0 to |items|
        invariant forall i :: 0 <= i < k ==> !IsRollout(items[i], thread)
      {
        if IsRollout(items[k], thread) {
          assert items[k] in items;
          return true;
        }
      }
      forall x | x in day.items ensures !IsRollout(x, thread) { assert x in items; }
      found := false;
    }

    method Walk(item: Item, depth: nat) returns (found: bool)
      requires depth <= 2
      modifies this`scanned
      ensures found <==> FoundIn(Days(item, depth), thread, maxDays - old(scanned))
      ensures !found && old(scanned) + |Days(item, depth)| <= maxDays ==> scanned == old(scanned) + |Days(item, depth)|
      ensures !found && old(scanned) + |Days(item, depth)| > maxDays ==> scanned > maxDays
      decreases 2 - depth
    {
      hide Newest, IsNumber, DayHas, Days, DaysOf, FoundIn;
      ghost var days, start := Days(item, depth), scanned;
      ghost var past: seq<Item> := [];
      DaysCases(item, depth);
      NothingFound(thread, maxDays - start);
      if !item.Folder? { return false; }
      var items := Newest(item.items);
      assert items[0..] == items;
      for k := 0 to |items|
        invariant days == past + DaysOf(items[k..], depth)
        invariant !FoundIn(past, thread, maxDays - start)
        invariant if start + |past| <= maxDays then scanned == start + |past| else scanned > maxDays
      {
        var x := items[k];
        NextDays(items, k, depth);
        if !IsNumber(x.name) { continue; }
        ghost var here := if depth == 2 then [x.item] else Days(x.item, depth + 1);
        Assoc(past, here, DaysOf(items[k + 1..], depth));
        FoundAppend(past, here, thread, maxDays - start);
        FoundAppend(past + here, DaysOf(items[k + 1..], depth), thread, maxDays - start);
        if depth == 2 {
          scanned := scanned + 1;
          if scanned > maxDays {
            NoRoom(DaysOf(items[k + 1..], depth), thread, maxDays - start - |past + here|);
            NoRoom(here, thread, maxDays - start - |past|);
            return false;
          }
          found := WalkDay(x.item);
          OneDay(x.item, thread, maxDays - start - |past|);
        } else {
          ghost var before := scanned;
          found := Walk(x.item, depth + 1);
          if before > maxDays {
            NoRoom(here, thread, maxDays - start - |past|);
            NoRoom(here, thread, maxDays - before);
          }
        }
        if found { return true; }
        past := past + here;
      }
      assert items[|items|..] == [] && past + [] == past;
      found := false;
    }

    /** `threadHasRollout` */
    method ThreadHasRollout(root: Item) returns (found: bool)
      requires scanned == 0
      modifies this`scanned
      ensures found <==> FoundIn(Days(root, 0), thread, maxDays)
    {
      found := Walk(root, 0);
    }
  }

  lemma DaysCases(item: Item, depth: nat)
    requires depth <= 2
    ensures Days(item, depth) == if item.Folder? then DaysOf(Newest(item.items), depth) else []
    ensures DaysOf([], depth) == []
  {
  }

  lemma NothingFound(thread: string, room: int)
    ensures !FoundIn([], thread, room)
  {
  }

  lemma NextDays(items: seq<Named>, k: nat, depth: nat)
    requires depth <= 2 && k < |items|
    ensures DaysOf(items[k..], depth)
         == (if !IsNumber(items[k].name) then []
             else if depth == 2 then [items[k].item]
             else Days(items[k].item, depth + 1)) + DaysOf(items[k + 1..], depth)
  {
    hide IsNumber, Days;
    assert items[k..][0] == items[k] && items[k..][1..] == items[k + 1..];
  }

  lemma FoundAppend(a: seq<Item>, b: seq<Item>, thread: string, room: int)
    ensures FoundIn(a + b, thread, room) <==> FoundIn(a, thread, room) || FoundIn(b, thread, room - |a|)
  {
    hide DayHas;
    if k :| 0 <= k < |a| && k < room && DayHas(a[k], thread) { assert (a + b)[k] == a[k]; }
    if k :| 0 <= k < |b| && k < room - |a| && DayHas(b[k], thread) { assert (a + b)[|a| + k] == b[k]; }
    if k :| 0 <= k < |a + b| && k < room && DayHas((a + b)[k], thread) {
      if k >= |a| { assert b[k - |a|] == (a + b)[k]; }
    }
  }

  lemma NoRoom(days: seq<Item>, thread: string, room: int)
    requires room <= 0
    ensures !FoundIn(days, thread, room)
  {
  }

  lemma OneDay(day: Item, thread: string, room: int)
    requires room > 0
    ensures FoundIn([day], thread, room) <==> DayHas(day, thread)
  {
    if DayHas(day, thread) { assert [day][0] == day; }
  }

  lemma {:induction false} InsertNamedHas(x: Named, items: seq<Named>)
    ensures multiset(InsertNamed(x, items)) == multiset(items) + multiset{x}
  {
    if items != [] {
      assert items == [items[0]] + items[1..];
      if !ReleaseManifest.Before(items[0].name, x.name) { InsertNamedHas(x, items[1..]); }
    }
  }

  lemma {:induction false} NewestHas(items: seq<Named>)
    ensures multiset(Newest(items)) == multiset(items)
    ensures forall x :: x in Newest(items) <==> x in items
  {
    if items != [] {
      NewestHas(items[1..]);
      InsertNamedHas(items[0], Newest(items[1..]));
      assert items == [items[0]] + items[1..];
    }
    forall x ensures x in Newest(items) <==> x in items {
      assert x in multiset(Newest(items)) <==> x in multiset(items);
    }
  }

  ghost predicate NewestFirst(items: seq<Named>)
  {
    forall i, j :: 0 <= i < j < |items| ==> !ReleaseManifest.Before(items[i].name, items[j].name)
  }

  lemma {:induction false} InsertNamedOrder(x: Named, items: seq<Named>)
    requires NewestFirst(items)
    ensures NewestFirst(InsertNamed(x, items))
  {
    hide ReleaseManifest.Before;
    if items == [] {
    } else if ReleaseManifest.Before(items[0].name, x.name) {
      forall j | 0 <= j < |items| ensures !ReleaseManifest.Before(x.name, items[j].name) {
        ReleaseManifest.Total(items[0].name, x.name);
        if ReleaseManifest.Before(x.name, items[j].name) {
          ReleaseManifest.Transitive(items[0].name, x.name, items[j].name);
        }
        ReleaseManifest.Total(items[0].name, items[j].name);
      }
    } else {
      InsertNamedOrder(x, items[1..]);
      var rest := InsertNamed(x, items[1..]);
      InsertNamedHas(x, items[1..]);
      forall j | 0 <= j < |rest| ensures !ReleaseManifest.Before(items[0].name, rest[j].name) {
        assert rest[j] in multiset(rest);
        if rest[j] != x {
          assert rest[j] in items[1..];
        }
      }
    }
  }

  lemma {:induction false} NewestFalls(items: seq<Named>)
    ensures NewestFirst(Newest(items))
  {
    if items != [] {
      NewestFalls(items[1..]);
      InsertNamedOrder(items[0], Newest(items[1..]));
    }
  }

  /** Days are met newest first: the same entries, each name the same as or above the next ones. */
  lemma NewestOrder(items: seq<Named>)
    ensures var found := Newest(items);
            && multiset(found) == multiset(items)
            && forall i, j :: 0 <= i < j < |found| ==>
                 found[i].name == found[j].name || ReleaseManifest.LowerText(found[j].name, found[i].name)
  {
    hide ReleaseManifest.Before, ReleaseManifest.LowerText, Newest;
    var found := Newest(items);
    NewestFalls(items);
    NewestHas(items);
    forall i, j | 0 <= i < j < |found|
      ensures found[i].name == found[j].name || ReleaseManifest.LowerText(found[j].name, found[i].name)
    {
      ReleaseManifest.Total(found[i].name, found[j].name);
      ReleaseManifest.BeforeIs(found[j].name, found[i].name);
    }
  }

  /** A rollout of the thread lies three numbered folders below. */
  ghost predicate Registered(item: Item, depth: nat, thread: string)
    requires depth <= 3
    decreases 3 - depth
  {
    if depth == 3 then DayHas(item, thread)
    else item.Folder? && exists x :: x in item.items && IsNumber(x.name) && Registered(x.item, depth + 1, thread)
  }

  ghost predicate SomeDay(days: seq<Item>, thread: string)
  {
    exists k :: 0 <= k < |days| && DayHas(days[k], thread)
  }

  lemma SomeDayAppend(a: seq<Item>, b: seq<Item>, thread: string)
    ensures SomeDay(a + b, thread) <==> SomeDay(a, thread) || SomeDay(b, thread)
  {
    hide DayHas;
    if k :| 0 <= k < |a| && DayHas(a[k], thread) { assert (a + b)[k] == a[k]; }
    if k :| 0 <= k < |b| && DayHas(b[k], thread) { assert (a + b)[|a| + k] == b[k]; }
  }

  lemma {:induction false} DaysRegistered(item: Item, depth: nat, thread: string)
    requires depth <= 2
    ensures SomeDay(Days(item, depth), thread) <==> Registered(item, depth, thread)
    decreases 2 - depth, 1, 0
  {
    hide DayHas, IsNumber, Newest, SomeDay;
    NoDay(thread);
    if item.Folder? {
      DaysOfRegistered(Newest(item.items), depth, thread);
      NewestHas(item.items);
    }
  }

  lemma NoDay(thread: string)
    ensures !SomeDay([], thread)
  {
  }

  lemma {:induction false} DaysOfRegistered(items: seq<Named>, depth: nat, thread: string)
    requires depth <= 2
    ensures SomeDay(DaysOf(items, depth), thread)
       <==> exists x :: x in items && IsNumber(x.name) && Registered(x.item, depth + 1, thread)
    decreases 2 - depth, 0, |items|
  {
    hide DayHas, IsNumber, Newest, SomeDay, Days;
    NoDay(thread);
    if items != [] {
      var x := items[0];
      var here := if !IsNumber(x.name) then [] else if depth == 2 then [x.item] else Days(x.item, depth + 1);
      DaysOfRegistered(items[1..], depth, thread);
      SomeDayAppend(here, DaysOf(items[1..], depth), thread);
      if depth < 2 { DaysRegistered(x.item, depth + 1, thread); } else { JustOne(x.item, thread); }
      assert items == [x] + items[1..];
    }
  }

  lemma JustOne(day: Item, thread: string)
    ensures SomeDay([day], thread) <==> DayHas(day, thread)
  {
    hide DayHas;
    if DayHas(day, thread) { assert DayHas([day][0], thread); }
  }

  /** How many day folders there are, in any order. */
  function CountDays(item: Item, depth: nat): nat
    requires depth <= 2
    decreases 2 - depth, 1, 0
  {
    if item.Folder? then CountIn(item.items, depth) else 0
  }

  function CountOne(x: Named, depth: nat): nat
    requires depth <= 2
    decreases 2 - depth, 0, 0
  {
    if !IsNumber(x.name) then 0 else if depth == 2 then 1 else CountDays(x.item, depth + 1)
  }

  function CountIn(items: seq<Named>, depth: nat): nat
    requires depth <= 2
    decreases 2 - depth, 0, |items| + 1
  {
    if items == [] then 0 else CountOne(items[0], depth) + CountIn(items[1..], depth)
  }

  lemma {:induction false} CountInsert(x: Named, items: seq<Named>, depth: nat)
    requires depth <= 2
    ensures CountIn(InsertNamed(x, items), depth) == CountOne(x, depth) + CountIn(items, depth)
  {
    hide CountOne, ReleaseManifest.Before;
    if items == [] || ReleaseManifest.Before(items[0].name, x.name) {
      assert ([x] + items)[1..] == items;
    } else {
      CountInsert(x, items[1..], depth);
      assert ([items[0]] + InsertNamed(x, items[1..]))[1..] == InsertNamed(x, items[1..]);
    }
  }

  lemma {:induction false} CountNewest(items: seq<Named>, depth: nat)
    requires depth <= 2
    ensures CountIn(Newest(items), depth) == CountIn(items, depth)
  {
    if items != [] {
      CountNewest(items[1..], depth);
      CountInsert(items[0], Newest(items[1..]), depth);
    }
  }

  lemma {:induction false} DaysCounted(item: Item, depth: nat)
    requires depth <= 2
    ensures |Days(item, depth)| == CountDays(item, depth)
    decreases 2 - depth, 1, 0
  {
    hide Newest, CountIn, CountOne;
    if item.Folder? {
      DaysOfCounted(Newest(item.items), depth);
      CountNewest(item.items, depth);
    }
  }

  lemma {:induction false} DaysOfCounted(items: seq<Named>, depth: nat)
    requires depth <= 2
    ensures |DaysOf(items, depth)| == CountIn(items, depth)
    decreases 2 - depth, 0, |items|
  {
    hide Days, IsNumber;
    if items != [] {
      DaysOfCounted(items[1..], depth);
      if depth < 2 { DaysCounted(items[0].item, depth + 1); }
    }
  }

  /** The search never answers yes wrongly, and it answers yes whenever it should if there are no more
      day folders than its bound. */
  lemma SearchIff(root: Item, thread: string, maxDays: nat)
    ensures FoundIn(Days(root, 0), thread, maxDays) ==> Registered(root, 0, thread)
    ensures CountDays(root, 0) <= maxDays ==> (FoundIn(Days(root, 0), thread, maxDays) <==> Registered(root, 0, thread))
  {
    hide Days, DayHas, Registered, CountDays;
    DaysRegistered(root, 0, thread);
    DaysCounted(root, 0);
  }

  /** A rollout of a thread is called so, with the time, or nothing, between the two parts of its name. */
  lemma RolloutNames(x: Named, thread: string)
    ensures IsRollout(x, thread) <==>
            (&& x.item == Regular(true)
             && (x.name == "rollout-" + thread + ".jsonl"
                 || exists time :: x.name == "rollout-" + time + "-" + thread + ".jsonl"))
  {
    var suffix := "-" + thread + ".jsonl";
    if IsRollout(x, thread) {
      var n := |x.name| - |suffix|;
      if n >= 8 {
        var time := x.name[8..n];
        assert x.name == x.name[..8] + time + x.name[n..];
        assert x.name == "rollout-" + time + "-" + thread + ".jsonl";
      } else {
        ShortRollout(x.name, thread);
      }
    }
    if x.name == "rollout-" + thread + ".jsonl" { assert x.name[7..] == suffix && x.name[..8] == "rollout-"; }
    if time :| x.name == "rollout-" + time + "-" + thread + ".jsonl" {
      assert x.name[|x.name| - |suffix|..] == suffix && x.name[..8] == "rollout-";
    }
  }

  /** The two parts can share no more than the dash. */
  lemma ShortRollout(name: string, thread: string)
    requires "rollout-" <= name && EndsWith(name, "-" + thread + ".jsonl") && |name| < 8 + |"-" + thread + ".jsonl"|
    ensures name == "rollout-" + thread + ".jsonl"
  {
    var n := |name| - |"-" + thread + ".jsonl"|;
    assert name[n] == '-' == ("-" + thread + ".jsonl")[0];
    assert name[..8] == "rollout-" && name[..8][n] == '-';
    assert name == name[..n] + name[n..];
  }
}
