/** Backups interleaved with archive runs, each of them interrupted at any point. One step here is an
    archive step, the start of a backup, one file operation of it, or a crash that leaves a temporary
    file half written. */
module BackupRuns {
  import opened Sequences
  import opened Archive
  import A = ArchiveRuns
  import opened Backup

  /** A backup under way: its names, its pid, the name it is at, and whether that name's temporary
      file is written and waits for its rename. */
  datatype Job = Job(names: seq<Name>, pid: nat, pos: nat, written: bool, conflicts: seq<Name>, failed: bool)

  datatype System = System(archive: A.State, dest: Dest, job: Option<Job>)

  /** A `Begin` while a backup is unfinished is the next one after a crash. */
  datatype Event = Archiving(event: A.Event) | Begin(pid: nat) | Copy | Tear(bytes: string)

  ghost function Step(t: Tools, s: System, e: Event): System
  {
    match e
    case Archiving(event) => s.(archive := A.Step(t.codec, t.offset, s.archive, event))
    case Begin(pid) =>
      var days := SortedKeys(s.archive.dir.manifests);
      if !AllRead(t.codec, s.archive.dir, days) then s.(job := None)
      else s.(job := Some(Job(NamesOf(GoodDays(t.codec, s.archive.dir, days)), pid, 0, false, [], false)))
    case Copy => if Busy(s) then CopyStep(t, s) else s
    case Tear(bytes) => if Busy(s) && !s.job.value.written then TearStep(t, s, bytes) else s.(job := None)
  }

  predicate Busy(s: System)
  {
    s.job.Some? && !s.job.value.failed && s.job.value.pos < |s.job.value.names|
  }

  function At(s: System): Name
    requires Busy(s)
  {
    s.job.value.names[s.job.value.pos]
  }

  /** The look and the temporary file are one step, the rename and the second look the next. */
  function CopyStep(t: Tools, s: System): System
    requires Busy(s)
  {
    var j, name := s.job.value, At(s);
    if j.written then
      if Temp(name, j.pid) !in s.dest then s.(job := Some(j.(failed := true)))
      else
        var bytes := s.dest[Temp(name, j.pid)].bytes;
        var same := t.codec.sha(t.disk(bytes)) == t.codec.sha(bytes);
        var conflicts := if same then j.conflicts else j.conflicts + [name];
        s.(dest := Place(s.dest, name, j.pid), job :=
            Some(j.(pos := j.pos + 1, written := false, conflicts := conflicts)))
    else
      var source := Source(t, s.archive.dir, name);
      if source.None? then s.(job := Some(j.(failed := true)))
      else
        match LookAt(t, s.dest, name, source.value, j.pid)
        case There(conflict) =>
          var conflicts := if conflict then j.conflicts + [name] else j.conflicts;
          s.(job := Some(j.(pos := j.pos + 1, conflicts := conflicts)))
        case Blocked => s.(job := Some(j.(failed := true)))
        case Wrote(dest) => s.(dest := dest, job := Some(j.(written := true)))
  }

  /** A crash while the temporary file is being written leaves any bytes in it. */
  function TearStep(t: Tools, s: System, bytes: string): System
    requires Busy(s)
  {
    var j, name := s.job.value, At(s);
    var source := Source(t, s.archive.dir, name);
    if source.Some? && LookAt(t, s.dest, name, source.value, j.pid).Wrote?
    then System(s.archive, s.dest[Temp(name, j.pid) := File(bytes, true)], None)
    else s.(job := None)
  }

  ghost function Steps(t: Tools, start: System, events: seq<Event>): System
  {
    if events == [] then start else Step(t, Steps(t, start, Front(events)), Last(events))
  }

  // ---------- one backup alone does what the loops do ----------

  function Copying(n: nat): seq<Event>
  {
    seq(n, _ => Copy)
  }

  lemma CopyOnce(t: Tools, s: System, n: nat)
    ensures Steps(t, s, Copying(n + 1)) == Step(t, Steps(t, s, Copying(n)), Copy)
  {
    assert Front(Copying(n + 1)) == Copying(n);
  }

  /** A backup between two names, as the loops have it. */
  predicate Between(s: System, names: seq<Name>, pid: nat, pos: nat, r: Report)
  {
    s.dest == r.dest && s.job == Some(Job(names, pid, pos, false, r.conflicts, r.failed))
  }

  /** One name takes the machine one step, or two when it is copied. */
  lemma NameInSteps(t: Tools, start: System, n: nat, names: seq<Name>, pid: nat, pos: nat, r: Report) returns (m: nat)
    requires pos < |names| && !r.failed && Between(Steps(t, start, Copying(n)), names, pid, pos, r)
    ensures n < m <= n + 2
    ensures var before, end := Steps(t, start, Copying(n)), Steps(t, start, Copying(m));
            var after := CopyName(t, before.archive.dir, r, names[pos], pid);
            end.archive == before.archive && Between(end, names, pid, if after.failed then pos else pos + 1, after)
  {
    hide Steps, Copying, CopyName;
    var s := Steps(t, start, Copying(n));
    CopyOnce(t, start, n);
    CopyOnce(t, start, n + 1);
    OneName(t, s, names, pid, pos, r);
    m := if Step(t, s, Copy).job.value.written then n + 2 else n + 1;
  }

  lemma OneName(t: Tools, s: System, names: seq<Name>, pid: nat, pos: nat, r: Report)
    requires pos < |names| && !r.failed && Between(s, names, pid, pos, r)
    ensures var after, next := CopyName(t, s.archive.dir, r, names[pos], pid), Step(t, s, Copy);
            && next.job.Some?
            && var end := if next.job.value.written then Step(t, next, Copy) else next;
            end.archive == s.archive && Between(end, names, pid, if after.failed then pos else pos + 1, after)
  {
    hide Source;
    assert Busy(s);
  }

  /** After some steps, at most two to a name, the machine is where the loops are after the first names. */
  lemma {:induction false} NamesInSteps(t: Tools, s: System, names: seq<Name>, pid: nat, k: nat) returns (n: nat)
    requires k <= |names| && Between(s, names, pid, 0, Report(s.dest, 0, [], false))
    ensures n <= 2 * k
    ensures var end, dir := Steps(t, s, Copying(n)), s.archive.dir;
            && end.archive == s.archive
            && Between(end, names, pid, Reach(t, dir, s.dest, names[..k], pid),
                       CopyNames(t, dir, s.dest, names[..k], pid))
  {
    hide CopyName, Steps, Copying, Between, Reach, CopyNames;
    var dir := s.archive.dir;
    if k == 0 {
      NothingYet(t, s, pid);
      assert names[..0] == [];
      return 0;
    }
    n := NamesInSteps(t, s, names, pid, k - 1);
    assert Front(names[..k]) == names[..k - 1];
    OneMoreName(t, dir, s.dest, names[..k], pid);
    var r := CopyNames(t, dir, s.dest, names[..k - 1], pid);
    if !r.failed { n := NameInSteps(t, s, n, names, pid, k - 1, r); }
  }

  lemma NothingYet(t: Tools, s: System, pid: nat)
    ensures Steps(t, s, Copying(0)) == s
    ensures CopyNames(t, s.archive.dir, s.dest, [], pid) == Report(s.dest, 0, [], false)
    ensures Reach(t, s.archive.dir, s.dest, [], pid) == 0
  {
  }

  lemma OneMoreName(t: Tools, dir: Directory, dest: Dest, some: seq<Name>, pid: nat)
    requires some != []
    ensures var before, after := CopyNames(t, dir, dest, Front(some), pid), CopyNames(t, dir, dest, some, pid);
            var n := Reach(t, dir, dest, some, pid);
            if before.failed then after == before && n == Reach(t, dir, dest, Front(some), pid)
            else
              && after == CopyName(t, dir, before, Last(some), pid)
              && Reach(t, dir, dest, Front(some), pid) == |some| - 1
              && n == if after.failed then |some| - 1 else |some|
  {
    hide CopyName, Reach, Stops, Filled;
    ReachNext(t, dir, dest, some, pid);
    GoneThrough(t, dir, dest, Front(some), pid);
    GoneThrough(t, dir, dest, some, pid);
    if CopyNames(t, dir, dest, Front(some), pid).failed { StaysFailed(t, dir, dest, Front(some), some, pid); }
  }

  lemma {:induction false} Rests(t: Tools, s: System, n: nat, more: nat)
    requires n <= more && !Busy(Steps(t, s, Copying(n)))
    ensures Steps(t, s, Copying(more)) == Steps(t, s, Copying(n))
    decreases more
  {
    if n < more {
      Rests(t, s, n, more - 1);
      CopyOnce(t, s, more - 1);
    }
  }

  lemma {:induction false} StepsAppend(t: Tools, start: System, a: seq<Event>, b: seq<Event>)
    ensures Steps(t, start, a + b) == Steps(t, Steps(t, start, a), b)
  {
    if b == [] {
      assert a + b == a;
    } else {
      assert Front(a + b) == a + Front(b);
      StepsAppend(t, start, a, Front(b));
    }
  }

  /** From any state: a backup that begins and is left to itself, with enough steps, ends as the loops over
      its names do, with the same files in place, the same conflicts and the same failure, where they stop. */
  lemma BackupAlone(t: Tools, start: System, pid: nat, more: nat)
    requires AllRead(t.codec, start.archive.dir, SortedKeys(start.archive.dir.manifests))
    requires var days := SortedKeys(start.archive.dir.manifests);
             more >= 2 * |NamesOf(GoodDays(t.codec, start.archive.dir, days))|
    ensures var dir := start.archive.dir;
            var names := NamesOf(GoodDays(t.codec, dir, SortedKeys(dir.manifests)));
            var r, end := CopyNames(t, dir, start.dest, names, pid), Steps(t, start, [Begin(pid)] + Copying(more));
            && end.archive == start.archive && end.dest == r.dest
            && end.job == Some(Job(names, pid, Reach(t, dir, start.dest, names, pid), false, r.conflicts, r.failed))
            && BackedUp(t, dir, start.dest, names, pid, r)
  {
    hide CopyNames, Reach, SortedKeys, GoodDays, NamesOf, AllRead, BackedUp;
    var dir := start.archive.dir;
    var names := NamesOf(GoodDays(t.codec, dir, SortedKeys(dir.manifests)));
    var s := Step(t, start, Begin(pid));
    assert Steps(t, start, [Begin(pid)]) == s by { assert Front([Begin(pid)]) == []; }
    StepsAppend(t, start, [Begin(pid)], Copying(more));
    hide Steps, Step, Copying;
    var n := NamesInSteps(t, s, names, pid, |names|);
    assert names[..|names|] == names;
    GoneThrough(t, dir, start.dest, names, pid);
    CopyNamesMeans(t, dir, start.dest, names, pid);
    Rests(t, s, n, more);
  }

  // ---------- any destination: no file that can be read is ever changed ----------

  ghost predicate Untouched(before: Dest, s: System)
  {
    && (forall f :: Readable(before, f) ==> f in s.dest && s.dest[f] == before[f])
    && (Busy(s) && s.job.value.written
       ==> !Readable(before, Temp(At(s), s.job.value.pid)) && !Readable(before, Final(At(s))))
  }

  lemma StepUntouched(t: Tools, before: Dest, s: System, e: Event)
    requires Untouched(before, s)
    ensures Untouched(before, Step(t, s, e))
  {
    hide Source, A.Step, SortedKeys, GoodDays, NamesOf;
  }

  /** From any destination and any archive directory, through any interleaving and any crashes: a
      destination file that can be read stays exactly what it is. */
  lemma {:induction false} NothingOverwritten(t: Tools, start: System, events: seq<Event>, f: DestName)
    requires start.job.None? && Readable(start.dest, f)
    ensures f in Steps(t, start, events).dest && Steps(t, start, events).dest[f] == start.dest[f]
  {
    AllUntouched(t, start, events);
  }

  lemma {:induction false} AllUntouched(t: Tools, start: System, events: seq<Event>)
    requires start.job.None?
    ensures Untouched(start.dest, Steps(t, start, events))
  {
    if events != [] {
      AllUntouched(t, start, Front(events));
      StepUntouched(t, start.dest, Steps(t, start, Front(events)), Last(events));
    }
  }

  /** Every name behind the position has a file that can be read in place, and a temporary file that
      waits for its rename can be read. */
  ghost predicate Behind(s: System)
  {
    s.job.Some? ==>
      && s.job.value.pos <= |s.job.value.names|
      && (forall k :: 0 <= k < s.job.value.pos ==> Readable(s.dest, Final(s.job.value.names[k])))
      && (Busy(s) && s.job.value.written ==> Readable(s.dest, Temp(At(s), s.job.value.pid)))
  }

  lemma StepBehind(t: Tools, s: System, e: Event)
    requires Behind(s) && (e.Archiving? || e.Copy?)
    ensures Behind(Step(t, s, e))
    ensures Step(t, s, e).job.Some? <==> s.job.Some?
  {
    hide Source, A.Step;
  }

  /** One backup that is not interrupted. */
  ghost predicate OneBackup(events: seq<Event>)
  {
    events != [] && events[0].Begin? && forall k :: 1 <= k < |events| ==> events[k].Archiving? || events[k].Copy?
  }

  lemma {:induction false} BackupUnderWay(t: Tools, start: System, events: seq<Event>)
    requires OneBackup(events)
    ensures Untouched(start.dest, Steps(t, start, events)) && Behind(Steps(t, start, events))
  {
    hide Step, Untouched, Behind;
    if |events| == 1 {
      assert Front(events) == [] && Last(events) == events[0];
      BackupBegins(t, start, events[0]);
    } else {
      assert Last(events) == events[|events| - 1];
      BackupUnderWay(t, start, Front(events));
      StepUntouched(t, start.dest, Steps(t, start, Front(events)), Last(events));
      StepBehind(t, Steps(t, start, Front(events)), Last(events));
    }
  }

  lemma BackupBegins(t: Tools, start: System, e: Event)
    requires e.Begin?
    ensures Untouched(start.dest, Step(t, start, e)) && Behind(Step(t, start, e))
  {
    hide SortedKeys, GoodDays, NamesOf, AllRead;
  }

  /** From any destination, with archive steps anywhere in between: a backup that has gone through its
      names has kept a file that was there under one of them if and only if the file could be read. One
      that could not is taken for absent, and the rename replaces it. */
  lemma KeptIffReadable(t: Tools, start: System, events: seq<Event>, name: Name)
    requires OneBackup(events)
    requires var s := Steps(t, start, events);
             s.job.Some? && s.job.value.pos == |s.job.value.names| && name in s.job.value.names
                 && Final(name) in start.dest
    ensures var dest := Steps(t, start, events).dest;
            && Final(name) in dest && dest[Final(name)].readable
            && (dest[Final(name)] == start.dest[Final(name)] <==> start.dest[Final(name)].readable)
  {
    hide Step, Steps;
    BackupUnderWay(t, start, events);
    var s := Steps(t, start, events);
    var k :| 0 <= k < |s.job.value.names| && s.job.value.names[k] == name;
    assert Readable(s.dest, Final(s.job.value.names[k]));
    if start.dest[Final(name)].readable { assert Readable(start.dest, Final(name)); }
  }

  /** The copy of a day without rows, and a destination that holds some file under its name that cannot be read. */
  function OneDay(c: Codec): Directory
  {
    var text := c.toText([]);
    Directory(map[0 := c.zip(text)], map[0 := Manifest(0, 0, 0, 0, c.sha(text), c.sha(c.zip(text)), |c.zip(text)|, 0)])
  }

  lemma OneDayVerifies(c: Codec)
    requires Faithful(c)
    ensures Verify(c, OneDay(c), 0) == Ok([])
  {
  }

  lemma OneKey<T>(m: map<int, T>)
    requires m.Keys == {0}
    ensures SortedKeys(m) == [0]
  {
    hide SortedKeys;
    AscendingUnique(SortedKeys(m), [0]);
  }

  lemma OneDayNames(c: Codec)
    requires Faithful(c)
    ensures var days := SortedKeys(OneDay(c).manifests);
            days == [0] && AllRead(c, OneDay(c), days)
            && NamesOf(GoodDays(c, OneDay(c), days)) == [DataOf(0), ManifestOf(0)]
  {
    hide Verify, SortedKeys, Ascending, AllRead, NamesOf, GoodDays, Faithful;
    OneKey(OneDay(c).manifests);
    OneDayVerifies(c);
    OneGood(c, OneDay(c));
  }

  lemma OneGood(c: Codec, dir: Directory)
    requires Verify(c, dir, 0).Ok?
    ensures AllRead(c, dir, [0]) && NamesOf(GoodDays(c, dir, [0])) == [DataOf(0), ManifestOf(0)]
  {
    hide Verify;
    assert Front([0]) == [] && GoodDays(c, dir, [0]) == [0];
    assert NamesOf([0]) == NamesOf([]) + [DataOf(0), ManifestOf(0)];
  }

  /** The other half: what was in such a file is lost, and not reported. */
  lemma UnreadableReplaced(t: Tools, lost: string, pid: nat)
    requires Faithful(t.codec) && forall bytes :: t.disk(bytes) == bytes
    ensures var start := System(A.State([], OneDay(t.codec), None), map[Final(DataOf(0)) := File(lost, false)], None);
            var end := Steps(t, start, [Begin(pid)] + Copying(4));
            && Final(DataOf(0)) in end.dest && end.dest[Final(DataOf(0))] == File(OneDay(t.codec).data[0], true)
            && end.job.Some? && end.job.value.pos == 2 && !end.job.value.failed && end.job.value.conflicts == []
  {
    hide SortedKeys, GoodDays, NamesOf, AllRead, Steps, CopyNames, Verify;
    OneDayNames(t.codec);
    var dir, dest := OneDay(t.codec), map[Final(DataOf(0)) := File(lost, false)];
    var start, names := System(A.State([], dir, None), dest, None), [DataOf(0), ManifestOf(0)];
    BackupAlone(t, start, pid, 4);
    OneDayGoes(t, dest, pid);
    hide Source, Stops, Differs, Filled, Reach;
    assert names[..2] == names;
    FilledAt(t, dir, dest, names, Final(DataOf(0)));
    FirstIn(CopyNames(t, dir, dest, names, pid).conflicts);
  }

  lemma OneDayGoes(t: Tools, dest: Dest, pid: nat)
    requires (forall bytes :: t.disk(bytes) == bytes) && forall f :: f in dest ==> f.Final? && !dest[f].readable
    ensures var dir, names := OneDay(t.codec), [DataOf(0), ManifestOf(0)];
            && Reach(t, dir, dest, names, pid) == 2
            && Source(t, dir, DataOf(0)) == Some(dir.data[0])
            && forall n :: n in names ==> Source(t, dir, n).Some? && !Differs(t, dir, dest, n)
  {
    var names := [DataOf(0), ManifestOf(0)];
    assert forall n :: n in names ==> !Stops(t, OneDay(t.codec), dest, n, pid);
  }

  // ---------- an empty destination: every file equals its source, and no conflict ----------

  ghost predicate Healthy(t: Tools)
  {
    Faithful(t.codec) && forall bytes :: t.disk(bytes) == bytes
  }

  /** What is in place is a closed day's file, the same as its source; a manifest never without its data. */
  ghost predicate Mirrors(t: Tools, dir: Directory, dest: Dest)
  {
    && (forall n :: Final(n) in dest ==>
         n.day in dir.manifests && CopiedInto(t, dir, dest, n, Final(n)))
    && (forall d :: Final(ManifestOf(d)) in dest ==> Final(DataOf(d)) in dest)
  }

  ghost predicate CopiedInto(t: Tools, dir: Directory, dest: Dest, n: Name, f: DestName)
  {
    Readable(dest, f) && Source(t, dir, n) == Some(dest[f].bytes)
  }

  ghost predicate PairsWellOrdered(names: seq<Name>)
  {
    forall k :: 0 <= k < |names| && names[k].ManifestOf? ==> k > 0 && names[k - 1] == DataOf(names[k].day)
  }

  ghost predicate JobOk(t: Tools, dir: Directory, dest: Dest, j: Job)
  {
    && j.conflicts == [] && j.pos <= |j.names|
    && PairsWellOrdered(j.names)
    && (forall n :: n in j.names ==> n.day in dir.manifests)
    && (forall k :: 0 <= k < j.pos ==> Final(j.names[k]) in dest)
    && (j.written ==> j.pos < |j.names| && CopiedInto(t, dir, dest, j.names[j.pos], Temp(j.names[j.pos], j.pid)))
    && (j.failed ==> !j.written && j.pos < |j.names| && Temp(j.names[j.pos], j.pid) in dest)
  }

  ghost predicate Good(t: Tools, s: System)
  {
    && A.Good(t.codec, t.offset, s.archive)
    && Mirrors(t, s.archive.dir, s.dest)
    && (s.job.Some? ==> JobOk(t, s.archive.dir, s.dest, s.job.value))
  }

  lemma SourcesThere(t: Tools, s: A.State)
    requires A.Good(t.codec, t.offset, s)
    ensures forall n: Name :: n.day in s.dir.manifests ==> Source(t, s.dir, n).Some?
  {
    hide A.RunOk, A.CopyOf, ManifestFor;
    forall n: Name | n.day in s.dir.manifests ensures Source(t, s.dir, n).Some? {
      assert A.Copied(t.codec, t.offset, s.ledger, s.dir, n.day);
    }
  }

  lemma SourcesKept(t: Tools, before: Directory, after: Directory, n: Name)
    requires A.Kept(before, after) && n.day in before.manifests && n.day in before.data
    ensures n.day in after.manifests && Source(t, after, n) == Source(t, before, n)
  {
  }

  lemma ArchiveStepGood(t: Tools, s: System, e: A.Event)
    requires Good(t, s)
    ensures Good(t, Step(t, s, Archiving(e)))
  {
    hide Source, A.Step, A.Good;
    var after := Step(t, s, Archiving(e));
    A.StepGood(t.codec, t.offset, s.archive, e);
    A.DataThere(t.codec, t.offset, s.archive);
    forall n: Name | n.day in s.archive.dir.manifests
      ensures n.day in after.archive.dir.manifests && Source(t, after.archive.dir, n) == Source(t, s.archive.dir, n)
    {
      SourcesKept(t, s.archive.dir, after.archive.dir, n);
    }
  }

  lemma {:induction false} NamesPair(days: seq<int>)
    ensures PairsWellOrdered(NamesOf(days))
  {
    if days != [] { NamesPair(Front(days)); }
  }

  /** In a reachable state every manifest's day verifies. */
  lemma AllVerify(t: Tools, s: A.State)
    requires Healthy(t) && A.Good(t.codec, t.offset, s)
    ensures var days := SortedKeys(s.dir.manifests);
            AllRead(t.codec, s.dir, days) && forall d :: d in GoodDays(t.codec, s.dir, days) <==> d in s.dir.manifests
  {
    hide Verify, A.Good;
    var days := SortedKeys(s.dir.manifests);
    forall d
      ensures d in days ==> Verify(t.codec, s.dir, d).Ok?
      ensures d in GoodDays(t.codec, s.dir, days) <==> d in days && Verify(t.codec, s.dir, d).Ok?
    {
      if d in days { A.CopyVerifies(t.codec, t.offset, s, d); }
      GoodDaysHas(t.codec, s.dir, days, d);
    }
  }

  lemma BeginGood(t: Tools, s: System, pid: nat)
    requires Healthy(t) && Good(t, s)
    ensures Good(t, Step(t, s, Begin(pid)))
  {
    hide A.Good, Source, AllRead, GoodDays, NamesOf, SortedKeys;
    AllVerify(t, s.archive);
    NamesPair(GoodDays(t.codec, s.archive.dir, SortedKeys(s.archive.dir.manifests)));
    NamesHave(GoodDays(t.codec, s.archive.dir, SortedKeys(s.archive.dir.manifests)));
  }

  lemma WriteGood(t: Tools, s: System)
    requires Healthy(t) && Good(t, s) && Busy(s) && !s.job.value.written
    ensures Good(t, CopyStep(t, s))
  {
    hide A.Good, Source;
    SourcesThere(t, s.archive);
    assert At(s) in s.job.value.names;
  }

  lemma RenameGood(t: Tools, s: System)
    requires Healthy(t) && Good(t, s) && Busy(s) && s.job.value.written
    ensures Good(t, CopyStep(t, s))
  {
    hide A.Good, Source;
    var j, name := s.job.value, At(s);
    assert name in j.names;
    var after := CopyStep(t, s);
    assert after.dest == Place(s.dest, name, j.pid);
    if name.ManifestOf? { assert Final(j.names[j.pos - 1]) in s.dest; }
  }

  lemma TearGood(t: Tools, s: System, bytes: string)
    requires Good(t, s)
    ensures Good(t, Step(t, s, Tear(bytes)))
  {
    hide A.Good, Source;
  }

  lemma StepGood(t: Tools, s: System, e: Event)
    requires Healthy(t) && Good(t, s)
    ensures Good(t, Step(t, s, e))
  {
    hide Good;
    match e
    case Archiving(event) => ArchiveStepGood(t, s, event);
    case Begin(pid) => BeginGood(t, s, pid);
    case Copy => if Busy(s) { if s.job.value.written { RenameGood(t, s); } else { WriteGood(t, s); } }
    case Tear(bytes) => TearGood(t, s, bytes);
  }

  const EMPTY: System := System(A.State([], Directory(map[], map[]), None), map[], None)

  lemma {:induction false} AlwaysGood(t: Tools, events: seq<Event>)
    requires Healthy(t)
    ensures Good(t, Steps(t, EMPTY, events))
  {
    if events != [] {
      AlwaysGood(t, Front(events));
      StepGood(t, Steps(t, EMPTY, Front(events)), Last(events));
    }
  }

  /** Into a destination that was empty at first: never a conflict; everything in place is a closed
      day's file and equals its source; a manifest is there only with its data; and a backup fails
      only on a temporary file that an earlier process of the same pid left behind. */
  lemma BackupsAgree(t: Tools, events: seq<Event>)
    requires Healthy(t)
    ensures var s := Steps(t, EMPTY, events);
            && (s.job.Some? ==> s.job.value.conflicts == [])
            && (forall n :: Final(n) in s.dest ==> Source(t, s.archive.dir, n) == Some(s.dest[Final(n)].bytes))
            && (forall d ::
                  Final(ManifestOf(d)) in s.dest ==> Final(DataOf(d)) in s.dest && d in s.archive.dir.manifests)
            && (s.job.Some? && s.job.value.failed
               ==> exists n :: n in s.job.value.names && Temp(n, s.job.value.pid) in s.dest)
  {
    hide A.Good;
    AlwaysGood(t, events);
  }

  /** A backup that has gone through its names has put both files of every day that was closed when
      it began in place, each equal to its source. */
  lemma {:induction false} FinishedBackup(t: Tools, events: seq<Event>, begun: nat, day: int)
    requires Healthy(t) && begun < |events| && events[begun].Begin?
    requires forall k :: begun < k < |events| ==> events[k].Archiving? || events[k].Copy?
    requires day in Steps(t, EMPTY, events[..begun]).archive.dir.manifests
    requires var s := Steps(t, EMPTY, events);
             s.job.Some? && s.job.value.pos == |s.job.value.names|
    ensures var s := Steps(t, EMPTY, events);
            && Final(DataOf(day)) in s.dest && Final(ManifestOf(day)) in s.dest
            && Some(s.dest[Final(DataOf(day))].bytes) == Source(t, s.archive.dir, DataOf(day))
            && Some(s.dest[Final(ManifestOf(day))].bytes) == Source(t, s.archive.dir, ManifestOf(day))
  {
    hide A.Good, Source;
    AlwaysGood(t, events);
    SameNames(t, events, begun, day);
    var s := Steps(t, EMPTY, events);
    var j := s.job.value;
    var a :| 0 <= a < |j.names| && j.names[a] == DataOf(day);
    var b :| 0 <= b < |j.names| && j.names[b] == ManifestOf(day);
    assert Final(j.names[a]) in s.dest && Final(j.names[b]) in s.dest;
  }

  lemma {:induction false} SameNames(t: Tools, events: seq<Event>, begun: nat, day: int)
    requires Healthy(t) && begun < |events| && events[begun].Begin?
    requires forall k :: begun < k < |events| ==> events[k].Archiving? || events[k].Copy?
    requires day in Steps(t, EMPTY, events[..begun]).archive.dir.manifests
    ensures var j := Steps(t, EMPTY, events).job;
            j.Some? && DataOf(day) in j.value.names && ManifestOf(day) in j.value.names
    decreases events
  {
    hide A.Good, Source, AllRead, GoodDays, NamesOf, SortedKeys, A.Step;
    if |events| == begun + 1 {
      assert Front(events) == events[..begun];
      AlwaysGood(t, Front(events));
      var s := Steps(t, EMPTY, Front(events));
      AllVerify(t, s.archive);
      NamesHave(GoodDays(t.codec, s.archive.dir, SortedKeys(s.archive.dir.manifests)));
    } else {
      assert Front(events)[..begun] == events[..begun];
      SameNames(t, Front(events), begun, day);
    }
  }

  // ---------- a copy that does not verify is not copied ----------

  /** At every moment of every run: a closed day whose data holds other bytes, or none, and does not verify for
      it is not among the names of a backup that begins then, which reports it or ends at once. Every other
      closed day is among them. */
  lemma ReplacedCopyNotBackedUp(t: Tools, events: seq<A.Event>, dest: Dest, day: int, bytes: Option<string>, pid: nat)
    requires Faithful(t.codec) && day in A.Steps(t.codec, t.offset, events).dir.manifests
    requires var s := A.Steps(t.codec, t.offset, events);
             Verify(t.codec, A.Replaced(s.dir, day, bytes), day).Err?
    ensures var s := A.Steps(t.codec, t.offset, events);
            var after := A.Replaced(s.dir, day, bytes);
            var reason := Verify(t.codec, after, day).error;
            var job := Step(t, System(s.(dir := after), dest, None), Begin(pid)).job;
            && (job.None? <==> reason == Missing || reason == Broken)
            && (job.Some? ==>
                  && (forall n :: n in job.value.names <==> n.day in s.dir.manifests && n.day != day)
                  && InvalidDays(t.codec, after, SortedKeys(after.manifests)) == [Invalid(day, reason)])
  {
    hide Verify, A.CopyOf, GoodDays, InvalidDays, NamesOf, SortedKeys, A.Passes;
    var s := A.Steps(t.codec, t.offset, events);
    var after := A.Replaced(s.dir, day, bytes);
    var days := SortedKeys(after.manifests);
    A.AlwaysGood(t.codec, t.offset, events);
    A.ReplacedCopyRejected(t.codec, t.offset, events, day, bytes);
    forall d | d in days && d != day ensures Verify(t.codec, after, d).Ok? {
      A.CopyVerifies(t.codec, t.offset, s, d);
    }
    assert AllRead(t.codec, after, days) <==> !Throws(Verify(t.codec, after, day));
    forall n ensures n in NamesOf(GoodDays(t.codec, after, days)) <==> n.day in s.dir.manifests && n.day != day {
      NamesHave(GoodDays(t.codec, after, days));
      GoodDaysHas(t.codec, after, days, n.day);
    }
    OneInvalid(t.codec, after, days, day);
  }
}
