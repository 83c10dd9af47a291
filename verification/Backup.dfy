/** Copies of the closed copies on another disk (src/core/backup.mjs, the local destination): each
    file goes to a temporary name first and is renamed into place; a file that is there already is
    compared and left alone. */
module Backup {
  import opened Sequences
  import opened Archive

  datatype Name = DataOf(day: int) | ManifestOf(day: int)

  datatype DestName = Final(name: Name) | Temp(name: Name, pid: nat) | Elsewhere(path: string)

  datatype File = File(bytes: string, readable: bool)

  type Dest = map<DestName, File>

  /** The codec, a manifest as the text of its file, and what the destination's disk gives back
      for bytes that were written to it. */
  datatype Tools = Tools(codec: Codec, offset: int, show: Manifest -> string, disk: string -> string)

  function Source(t: Tools, dir: Directory, name: Name): Option<string>
  {
    match name
    case DataOf(d) => if d in dir.data then Some(dir.data[d]) else None
    case ManifestOf(d) => if d in dir.manifests then Some(t.show(dir.manifests[d])) else None
  }

  /** What the look at one name finds: a file that can be read, a temporary name that is taken, or
      room for the copy. A file that cannot be read counts as none. */
  datatype Looked = There(conflict: bool) | Blocked | Wrote(dest: Dest)

  function LookAt(t: Tools, dest: Dest, name: Name, source: string, pid: nat): Looked
  {
    if Final(name) in dest && dest[Final(name)].readable
    then There(t.codec.sha(dest[Final(name)].bytes) != t.codec.sha(source))
    else if Temp(name, pid) in dest then Blocked
    else Wrote(dest[Temp(name, pid) := File(source, true)])
  }

  function Place(dest: Dest, name: Name, pid: nat): Dest
    requires Temp(name, pid) in dest
  {
    (dest - {Temp(name, pid)})[Final(name) := dest[Temp(name, pid)]]
  }

  datatype Report = Report(dest: Dest, copied: nat, conflicts: seq<Name>, failed: bool)

  /** The file is read once more after the rename. */
  function Recheck(t: Tools, r: Report, name: Name, source: string): Report
  {
    if t.codec.sha(t.disk(source)) != t.codec.sha(source) then r.(conflicts := r.conflicts + [name])
    else r.(copied := r.copied + 1)
  }

  function CopyName(t: Tools, dir: Directory, r: Report, name: Name, pid: nat): Report
  {
    if r.failed then r
    else
      match Source(t, dir, name)
      case None => r.(failed := true)
      case Some(source) =>
        match LookAt(t, r.dest, name, source, pid)
        case There(conflict) => if conflict then r.(conflicts := r.conflicts + [name]) else r
        case Blocked => r.(failed := true)
        case Wrote(dest) => Recheck(t, r.(dest := Place(dest, name, pid)), name, source)
  }

  function CopyNames(t: Tools, dir: Directory, dest: Dest, names: seq<Name>, pid: nat): Report
  {
    if names == [] then Report(dest, 0, [], false)
    else CopyName(t, dir, CopyNames(t, dir, dest, Front(names), pid), Last(names), pid)
  }

  function NamesOf(days: seq<int>): seq<Name>
  {
    if days == [] then [] else NamesOf(Front(days)) + [DataOf(Last(days)), ManifestOf(Last(days))]
  }

  // ---------- what the loop comes to ----------

  predicate Readable(dest: Dest, f: DestName)
  {
    f in dest && dest[f].readable
  }

  /** The backup ends with an exception at a name whose source is not there, or whose copy has to be made
      and finds its temporary name taken. */
  predicate Stops(t: Tools, dir: Directory, dest: Dest, name: Name, pid: nat)
  {
    Source(t, dir, name).None? || (!Readable(dest, Final(name)) && Temp(name, pid) in dest)
  }

  /** The file that is there, or the copy when it is read again, does not have its source's digest. */
  predicate Differs(t: Tools, dir: Directory, dest: Dest, name: Name)
    requires Source(t, dir, name).Some?
  {
    var source := Source(t, dir, name).value;
    t.codec.sha(if Readable(dest, Final(name)) then dest[Final(name)].bytes else t.disk(source)) != t.codec.sha(source)
  }

  /** The destination with the sources of those of the names in place that had no readable file. */
  function Filled(t: Tools, dir: Directory, dest: Dest, names: seq<Name>): Dest
  {
    dest + map name | name in names && !Readable(dest, Final(name)) && Source(t, dir, name).Some?
      :: Final(name) := File(Source(t, dir, name).value, true)
  }

  /** The names before the first at which the backup stops, as the destination is when it begins. */
  function Reach(t: Tools, dir: Directory, dest: Dest, names: seq<Name>, pid: nat): (n: nat)
    ensures n <= |names|
    ensures forall k :: 0 <= k < n ==> !Stops(t, dir, dest, names[k], pid)
    ensures n < |names| ==> Stops(t, dir, dest, names[n], pid)
  {
    if names == [] then 0
    else
      var n := Reach(t, dir, dest, Front(names), pid);
      if n < |names| - 1 || Stops(t, dir, dest, Last(names), pid) then n else |names|
  }

  /** What a backup of these names comes to, whatever was at the destination: the names are gone through up
      to the first at which it stops; their files are in place and nothing else has changed, no temporary
      file included; the conflicts are those of the names that differ. */
  ghost predicate BackedUp(t: Tools, dir: Directory, before: Dest, names: seq<Name>, pid: nat, r: Report)
  {
    var n := Reach(t, dir, before, names, pid);
    && r.dest == Filled(t, dir, before, names[..n])
    && (r.failed <==> n < |names|)
    && (forall k :: 0 <= k < n && Differs(t, dir, before, names[k]) ==> names[k] in r.conflicts)
    && (forall c :: c in r.conflicts ==> c in names[..n] && Source(t, dir, c).Some? && Differs(t, dir, before, c))
  }

  predicate Fills(t: Tools, dir: Directory, dest: Dest, names: seq<Name>, f: DestName)
  {
    f.Final? && f.name in names && !Readable(dest, f) && Source(t, dir, f.name).Some?
  }

  lemma FilledAt(t: Tools, dir: Directory, dest: Dest, names: seq<Name>, f: DestName)
    ensures var now := Filled(t, dir, dest, names);
            if Fills(t, dir, dest, names, f) then f in now && now[f] == File(Source(t, dir, f.name).value, true)
            else (f in now <==> f in dest) && (f in dest ==> now[f] == dest[f])
  {
    hide Source;
  }

  /** One name. */
  lemma CopyNameMeans(t: Tools, dir: Directory, r: Report, name: Name, pid: nat)
    requires !r.failed
    ensures var after := CopyName(t, dir, r, name, pid);
            && (after.failed <==> Stops(t, dir, r.dest, name, pid))
            && (after.failed ==> after == r.(failed := true))
            && (!after.failed ==>
                  && Source(t, dir, name).Some?
                  && var differs := Differs(t, dir, r.dest, name);
                  && after.dest == Filled(t, dir, r.dest, [name])
                  && after.conflicts == r.conflicts + (if differs then [name] else [])
                  && after.copied == r.copied + if differs || Readable(r.dest, Final(name)) then 0 else 1)
  {
    hide Filled, Source;
    if !Stops(t, dir, r.dest, name, pid) {
      OneFilled(t, dir, r.dest, name, pid);
    }
  }

  lemma OneFilled(t: Tools, dir: Directory, dest: Dest, name: Name, pid: nat)
    requires Source(t, dir, name).Some?
    ensures var source := Source(t, dir, name).value;
            if Readable(dest, Final(name)) then Filled(t, dir, dest, [name]) == dest
            else
              Temp(name, pid) !in dest ==>
                Place(dest[Temp(name, pid) := File(source, true)], name, pid) == Filled(t, dir, dest, [name])
  {
    hide Filled, Source;
    var now := Filled(t, dir, dest, [name]);
    forall f
      ensures if f == Final(name) && !Readable(dest, f)
              then f in now && now[f] == File(Source(t, dir, name).value, true)
              else (f in now <==> f in dest) && (f in dest ==> now[f] == dest[f])
    {
      FilledAt(t, dir, dest, [name], f);
    }
  }

  lemma FilledMore(t: Tools, dir: Directory, dest: Dest, some: seq<Name>, name: Name)
    ensures Filled(t, dir, Filled(t, dir, dest, some), [name]) == Filled(t, dir, dest, some + [name])
  {
    hide Filled, Source;
    var now := Filled(t, dir, dest, some);
    var left, right := Filled(t, dir, now, [name]), Filled(t, dir, dest, some + [name]);
    forall f ensures (f in left <==> f in right) && (f in left ==> left[f] == right[f]) {
      FilledAt(t, dir, dest, some, f);
      FilledAt(t, dir, now, [name], f);
      FilledAt(t, dir, dest, some + [name], f);
    }
  }

  /** After the first names, one more: it stops and differs as it did at the beginning, unless it has been
      copied already. */
  lemma FilledNext(t: Tools, dir: Directory, dest: Dest, some: seq<Name>, name: Name, pid: nat)
    requires forall k :: 0 <= k < |some| ==> !Stops(t, dir, dest, some[k], pid)
    ensures var now := Filled(t, dir, dest, some);
            && (Stops(t, dir, now, name, pid) <==> Stops(t, dir, dest, name, pid))
            && (Source(t, dir, name).Some? ==>
                 && (Differs(t, dir, now, name) ==> Differs(t, dir, dest, name))
                 && (Differs(t, dir, dest, name) ==> Differs(t, dir, now, name) || name in some))
            && (name !in some ==> (Readable(now, Final(name)) <==> Readable(dest, Final(name))))
  {
    hide Filled, Source;
    FilledAt(t, dir, dest, some, Final(name));
    FilledAt(t, dir, dest, some, Temp(name, pid));
    assert name in some ==> exists k :: 0 <= k < |some| && some[k] == name;
  }

  lemma ReachNext(t: Tools, dir: Directory, dest: Dest, names: seq<Name>, pid: nat)
    requires names != []
    ensures var n := Reach(t, dir, dest, Front(names), pid);
            && Reach(t, dir, dest, names, pid)
            == (if n < |names| - 1 || Stops(t, dir, dest, Last(names), pid) then n else |names|)
            && names[..n] == Front(names)[..n]
            && names[..|names| - 1] == Front(names) && Front(names) + [Last(names)] == names == names[..|names|]
  {
  }

  /** The loops come to that, from any destination and for any names. */
  lemma {:induction false} CopyNamesMeans(t: Tools, dir: Directory, dest: Dest, names: seq<Name>, pid: nat)
    ensures BackedUp(t, dir, dest, names, pid, CopyNames(t, dir, dest, names, pid))
  {
    hide CopyName, CopyNames, Filled, Stops, Differs, Source, Reach;
    if names == [] {
      NothingMeans(t, dir, dest, pid);
    } else {
      var front := Front(names);
      ReachNext(t, dir, dest, names, pid);
      CopyNamesMeans(t, dir, dest, front, pid);
      if Reach(t, dir, dest, front, pid) == |front| {
        NextMeans(t, dir, dest, names, pid);
      } else {
        StaysFailed(t, dir, dest, front, names, pid);
      }
    }
  }

  lemma NothingMeans(t: Tools, dir: Directory, dest: Dest, pid: nat)
    ensures BackedUp(t, dir, dest, [], pid, CopyNames(t, dir, dest, [], pid))
  {
    assert Filled(t, dir, dest, []) == dest;
  }

  lemma NextMeans(t: Tools, dir: Directory, dest: Dest, names: seq<Name>, pid: nat)
    requires names != [] && Reach(t, dir, dest, Front(names), pid) == |names| - 1
    requires BackedUp(t, dir, dest, Front(names), pid, CopyNames(t, dir, dest, Front(names), pid))
    ensures BackedUp(t, dir, dest, names, pid, CopyNames(t, dir, dest, names, pid))
  {
    hide CopyName, CopyNames, Filled, Readable, Source, Stops, Differs, Reach;
    ReachNext(t, dir, dest, names, pid);
    var front, name, r := Front(names), Last(names), CopyNames(t, dir, dest, Front(names), pid);
    assert front[..|front|] == front;
    var after := CopyName(t, dir, r, name, pid);
    assert CopyNames(t, dir, dest, names, pid) == after by { NextNames(t, dir, dest, front, name, name, pid); }
    CopyNameMeans(t, dir, r, name, pid);
    FilledNext(t, dir, dest, front, name, pid);
    if !after.failed {
      FilledMore(t, dir, dest, front, name);
      forall c | c in after.conflicts
        ensures c in names && Source(t, dir, c).Some? && Differs(t, dir, dest, c)
      {
        assert c in r.conflicts || c == name;
      }
    }
  }

  /** What is gained by it: what could be read at the destination, and everything that is not one of the
      names, is what it was; and unless it stopped, every name has a file that can be read, its source if
      there was none. */
  ghost predicate Gained(t: Tools, dir: Directory, before: Dest, names: seq<Name>, r: Report)
  {
    && (forall f :: f in before && (before[f].readable || !f.Final? || f.name !in names)
          ==> f in r.dest && r.dest[f] == before[f])
    && (forall f :: f in r.dest && f !in before
          ==> f.Final? && f.name in names && Source(t, dir, f.name) == Some(r.dest[f].bytes))
    && (!r.failed ==>
          forall name :: name in names ==>
            && Readable(r.dest, Final(name))
            && (!Readable(before, Final(name)) ==> Source(t, dir, name) == Some(r.dest[Final(name)].bytes)))
  }

  lemma BackedUpGains(t: Tools, dir: Directory, before: Dest, names: seq<Name>, pid: nat, r: Report)
    requires BackedUp(t, dir, before, names, pid, r)
    ensures Gained(t, dir, before, names, r)
  {
    hide Filled, Source, Reach, Differs;
    var n := Reach(t, dir, before, names, pid);
    forall f: DestName
      ensures var now := r.dest;
              if Fills(t, dir, before, names[..n], f)
              then f in now && now[f] == File(Source(t, dir, f.name).value, true) && f.name in names
              else (f in now <==> f in before) && (f in before ==> now[f] == before[f])
    {
      FilledAt(t, dir, before, names[..n], f);
    }
    if n == |names| {
      assert names[..n] == names;
      forall name | name in names ensures Source(t, dir, name).Some? {
        var k :| 0 <= k < |names| && names[k] == name;
        assert !Stops(t, dir, before, names[k], pid);
      }
    }
  }

  ghost predicate Distinct(names: seq<Name>)
  {
    forall i, j :: 0 <= i < j < |names| ==> names[i] != names[j]
  }

  /** The names whose copy was made and read back well. */
  function Landed(t: Tools, dir: Directory, dest: Dest, names: seq<Name>): set<Name>
  {
    set name | name in names && Source(t, dir, name).Some? && !Readable(dest, Final(name))
               && !Differs(t, dir, dest, name)
  }

  /** Both, and what is counted. */
  ghost predicate Complete(t: Tools, dir: Directory, before: Dest, names: seq<Name>, pid: nat, r: Report)
  {
    && BackedUp(t, dir, before, names, pid, r) && Gained(t, dir, before, names, r)
    && r.copied == |Landed(t, dir, before, names[..Reach(t, dir, before, names, pid)])|
  }

  lemma {:induction false} NamesHave(days: seq<int>)
    ensures forall n :: n in NamesOf(days) <==> n.day in days
  {
    if days != [] {
      NamesHave(Front(days));
      assert days == Front(days) + [Last(days)];
    }
  }

  lemma {:induction false} NamesDistinct(days: seq<int>)
    requires Ascending(days)
    ensures Distinct(NamesOf(days))
  {
    if days != [] {
      NamesDistinct(Front(days));
      NamesHave(Front(days));
    }
  }

  lemma {:induction false} GoodDaysAscend(c: Codec, dir: Directory, days: seq<int>)
    requires Ascending(days)
    ensures Ascending(GoodDays(c, dir, days))
  {
    if days != [] {
      GoodDaysAscend(c, dir, Front(days));
      var good := GoodDays(c, dir, Front(days));
      forall k | 0 <= k < |good| ensures good[k] < Last(days) {
        GoodDaysHas(c, dir, Front(days), good[k]);
      }
    }
  }

  /** `copied` counts the files that were not there and have been read back as they should. */
  lemma {:induction false} CopiedCounts(t: Tools, dir: Directory, dest: Dest, names: seq<Name>, pid: nat)
    requires Distinct(names)
    ensures CopyNames(t, dir, dest, names, pid).copied
         == |Landed(t, dir, dest, names[..Reach(t, dir, dest, names, pid)])|
  {
    if names == [] {
      assert Landed(t, dir, dest, []) == {};
    } else {
      hide CopyName, CopyNames, Filled, Stops, Differs, Source, Landed, Distinct, Reach;
      var front, name := Front(names), Last(names);
      var r := CopyNames(t, dir, dest, front, pid);
      DistinctFront(names);
      CopiedCounts(t, dir, dest, front, pid);
      GoneThrough(t, dir, dest, front, pid);
      NextNames(t, dir, dest, front, name, name, pid);
      ReachNext(t, dir, dest, names, pid);
      if r.failed {
        StaysFailed(t, dir, dest, front, names, pid);
      } else {
        CopyNameMeans(t, dir, r, name, pid);
        FilledNext(t, dir, dest, front, name, pid);
        if !Stops(t, dir, dest, name, pid) { OneMore(t, dir, dest, front, name); }
      }
    }
  }

  lemma GoneThrough(t: Tools, dir: Directory, dest: Dest, names: seq<Name>, pid: nat)
    ensures var r := CopyNames(t, dir, dest, names, pid);
            && (r.failed <==> Reach(t, dir, dest, names, pid) < |names|)
            && (!r.failed ==> r.dest == Filled(t, dir, dest, names))
  {
    hide CopyNames, Filled, Source;
    CopyNamesMeans(t, dir, dest, names, pid);
    assert names[..|names|] == names;
  }

  lemma DistinctFront(names: seq<Name>)
    requires names != [] && Distinct(names)
    ensures Distinct(Front(names)) && Last(names) !in Front(names)
  {
  }

  lemma OneMore(t: Tools, dir: Directory, dest: Dest, some: seq<Name>, name: Name)
    requires name !in some && Source(t, dir, name).Some?
    ensures |Landed(t, dir, dest, some + [name])| == |Landed(t, dir, dest, some)|
         + if Readable(dest, Final(name)) || Differs(t, dir, dest, name) then 0 else 1
  {
    hide Source, Readable, Differs;
    var more := Readable(dest, Final(name)) || Differs(t, dir, dest, name);
    assert Landed(t, dir, dest, some + [name]) == Landed(t, dir, dest, some) + if more then {} else {name};
  }

  datatype Invalid = Invalid(day: int, reason: Reason)

  predicate Throws(checked: Result<seq<Row>, Reason>)
  {
    checked == Err(Missing) || checked == Err(Broken)
  }

  ghost predicate AllRead(c: Codec, dir: Directory, days: seq<int>)
  {
    forall d :: d in days ==> !Throws(Verify(c, dir, d))
  }

  ghost function GoodDays(c: Codec, dir: Directory, days: seq<int>): seq<int>
  {
    if days == [] then []
    else GoodDays(c, dir, Front(days)) + (if Verify(c, dir, Last(days)).Ok? then [Last(days)] else [])
  }

  ghost function InvalidDays(c: Codec, dir: Directory, days: seq<int>): seq<Invalid>
  {
    if days == [] then []
    else
      var checked := Verify(c, dir, Last(days));
      InvalidDays(c, dir, Front(days)) + (if checked.Err? then [Invalid(Last(days), checked.error)] else [])
  }

  lemma {:induction false} GoodDaysHas(c: Codec, dir: Directory, days: seq<int>, d: int)
    ensures d in GoodDays(c, dir, days) <==> d in days && Verify(c, dir, d).Ok?
  {
    if days != [] {
      GoodDaysHas(c, dir, Front(days), d);
      assert days == Front(days) + [Last(days)];
    }
  }

  lemma {:induction false} InvalidDaysHas(c: Codec, dir: Directory, days: seq<int>, invalid: Invalid)
    ensures invalid in InvalidDays(c, dir, days)
       <==> invalid.day in days && Verify(c, dir, invalid.day) == Err(invalid.reason)
  {
    hide Verify;
    if days != [] {
      InvalidDaysHas(c, dir, Front(days), invalid);
      assert days == Front(days) + [Last(days)];
    }
  }

  /** Every closed day is either good or reported, with its reason, and both lists are in the order of days. */
  lemma {:induction false} DaysSplit(c: Codec, dir: Directory, days: seq<int>)
    requires Ascending(days)
    ensures var good, invalid := GoodDays(c, dir, days), InvalidDays(c, dir, days);
            && |good| + |invalid| == |days| && Ascending(good)
            && (forall i, j :: 0 <= i < j < |invalid| ==> invalid[i].day < invalid[j].day)
            && (forall d :: d in good <==> d in days && Verify(c, dir, d).Ok?)
            && forall bad :: bad in invalid <==> bad.day in days && Verify(c, dir, bad.day) == Err(bad.reason)
  {
    hide Verify;
    GoodDaysAscend(c, dir, days);
    forall d ensures d in GoodDays(c, dir, days) <==> d in days && Verify(c, dir, d).Ok? {
      GoodDaysHas(c, dir, days, d);
    }
    forall bad
      ensures bad in InvalidDays(c, dir, days) <==> bad.day in days && Verify(c, dir, bad.day) == Err(bad.reason)
    {
      InvalidDaysHas(c, dir, days, bad);
    }
    if days != [] {
      var before := InvalidDays(c, dir, Front(days));
      DaysSplit(c, dir, Front(days));
      assert forall k :: 0 <= k < |before| ==> before[k] in before;
    }
  }

  lemma {:induction false} OneInvalid(c: Codec, dir: Directory, days: seq<int>, day: int)
    requires Ascending(days) && day in days && Verify(c, dir, day).Err?
    requires forall d :: d in days && d != day ==> Verify(c, dir, d).Ok?
    ensures InvalidDays(c, dir, days) == [Invalid(day, Verify(c, dir, day).error)]
  {
    hide Verify, InvalidDays, GoodDays;
    DaysSplit(c, dir, days);
    var invalid := InvalidDays(c, dir, days);
    var bad := Invalid(day, Verify(c, dir, day).error);
    assert bad in invalid;
    forall k | 0 <= k < |invalid| ensures invalid[k] == bad {
      assert invalid[k] in invalid;
    }
    assert |invalid| > 1 ==> invalid[0].day < invalid[1].day;
  }

  /** The destination as it is configured, the remote kind aside. */
  datatype Destination = Unset | Relative | NotThere | Folder

  datatype Outcome = NotConfigured | Thrown | DestinationMissing(invalid: seq<Invalid>) | Done(invalid: seq<Invalid>)

  class Copier {
    const tools: Tools
    const archiver: Archiver
    var dest: Dest
    var copied: nat
    var conflicts: seq<Name>

    constructor (tools: Tools, archiver: Archiver, dest: Dest)
      ensures this.tools == tools && this.archiver == archiver && this.dest == dest && copied == 0 && conflicts == []
    {
      this.tools, this.archiver, this.dest, this.copied, this.conflicts := tools, archiver, dest, 0, [];
    }

    function Now(failed: bool): Report
      reads this
    {
      Report(dest, copied, conflicts, failed)
    }

    /** The body of the inner loop. A `false` is an exception that ends the whole backup. */
    method CopyFile(name: Name, pid: nat) returns (ok: bool)
      modifies this
      ensures ok <==> !Stops(tools, archiver.dir, old(dest), name, pid)
      ensures !ok ==> Now(false) == old(Now(false))
      ensures ok ==>
                && Source(tools, archiver.dir, name).Some?
                && var differs := Differs(tools, archiver.dir, old(dest), name);
                && dest == Filled(tools, archiver.dir, old(dest), [name])
                && conflicts == old(conflicts) + (if differs then [name] else [])
                && copied == old(copied) + if differs || Readable(old(dest), Final(name)) then 0 else 1
      ensures Now(!ok) == CopyName(tools, archiver.dir, old(Now(false)), name, pid)
    {
      hide Filled, Differs;
      CopyNameMeans(tools, archiver.dir, Now(false), name, pid);
      var source := Source(tools, archiver.dir, name);
      if source.None? { return false; }
      if Final(name) in dest && dest[Final(name)].readable {
        if tools.codec.sha(dest[Final(name)].bytes) != tools.codec.sha(source.value) {
          conflicts := conflicts + [name];
        }
        return true;
      }
      if Temp(name, pid) in dest { return false; }
      dest := dest[Temp(name, pid) := File(source.value, true)];
      dest := Place(dest, name, pid);
      if tools.codec.sha(tools.disk(dest[Final(name)].bytes)) != tools.codec.sha(source.value) {
        conflicts := conflicts + [name];
      } else {
        copied := copied + 1;
      }
      ok := true;
    }

    /** Every closed day is verified first; a file that is not there, or broken, is an exception. */
    method CheckAll(days: seq<int>) returns (read: bool, good: seq<int>, invalid: seq<Invalid>)
      requires archiver.codec == tools.codec
      ensures read <==> AllRead(tools.codec, archiver.dir, days)
      ensures read ==>
                && good == GoodDays(tools.codec, archiver.dir, days)
                && invalid == InvalidDays(tools.codec, archiver.dir, days)
    {
      hide Verify;
      good, invalid := [], [];
      for i := 0 to |days|
        invariant AllRead(tools.codec, archiver.dir, days[..i])
        invariant good == GoodDays(tools.codec, archiver.dir, days[..i])
        invariant invalid == InvalidDays(tools.codec, archiver.dir, days[..i])
      {
        assert Front(days[..i + 1]) == days[..i] && days[..i + 1] == days[..i] + [days[i]];
        var checked := archiver.VerifyArchive(days[i]);
        if Throws(checked) { return false, [], []; }
        if checked.Ok? { good := good + [days[i]]; } else { invalid := invalid + [Invalid(days[i], checked.error)]; }
      }
      assert days[..|days|] == days;
      read := true;
    }

    /** The destination is looked at only after every closed day has been verified. */
    method BackupArchives(place: Destination, pid: nat) returns (outcome: Outcome)
      requires archiver.codec == tools.codec && copied == 0 && conflicts == []
      modifies this
      ensures place == Unset ==> outcome == NotConfigured
      ensures place != Folder ==> Now(false) == old(Now(false))
      ensures forall f :: Readable(old(dest), f) ==> f in dest && dest[f] == old(dest)[f]
      ensures var t, dir, days, before := tools, archiver.dir, SortedKeys(archiver.dir.manifests), old(dest);
              var after := Now(outcome == Thrown);
              if place == Unset then true
              else if !AllRead(t.codec, dir, days) then outcome == Thrown && dest == before
              else
                var invalid := InvalidDays(t.codec, dir, days);
                match place
                case Relative => outcome == Thrown
                case NotThere => outcome == DestinationMissing(invalid)
                case _ =>
                  && (outcome == Thrown || outcome == Done(invalid))
                  && after == CopyNames(t, dir, before, NamesOf(GoodDays(t.codec, dir, days)), pid)
                  && Complete(t, dir, before, NamesOf(GoodDays(t.codec, dir, days)), pid, after)
    {
      hide SortedKeys, CopyName, GoodDays, InvalidDays, CopyNames, Source, Complete;
      if place == Unset { return NotConfigured; }
      var days := SortDays(archiver.dir.manifests);
      var read, good, invalid := CheckAll(days);
      if !read || place == Relative { return Thrown; }
      if place == NotThere { return DestinationMissing(invalid); }
      GoodDaysAscend(tools.codec, archiver.dir, days);
      NamesDistinct(good);
      CopyNamesGain(tools, archiver.dir, dest, NamesOf(good), pid);
      var ok := CopyDays(good, pid);
      outcome := if ok then Done(invalid) else Thrown;
    }

    /** The two loops over the good days and the two files of each. */
    method CopyDays(good: seq<int>, pid: nat) returns (ok: bool)
      requires copied == 0 && conflicts == []
      modifies this
      ensures Now(!ok) == CopyNames(tools, archiver.dir, old(dest), NamesOf(good), pid)
      ensures BackedUp(tools, archiver.dir, old(dest), NamesOf(good), pid, Now(!ok))
      ensures ok <==> forall name :: name in NamesOf(good) ==> !Stops(tools, archiver.dir, old(dest), name, pid)
      ensures forall f :: Readable(old(dest), f) ==> f in dest && dest[f] == old(dest)[f]
      ensures Gained(tools, archiver.dir, old(dest), NamesOf(good), Now(!ok))
    {
      hide CopyName, BackedUp, Gained, Stops, Source;
      CopyNamesGain(tools, archiver.dir, dest, NamesOf(good), pid);
      ghost var dir, start := archiver.dir, dest;
      ghost var done: seq<Name> := [];
      for i := 0 to |good|
        invariant done == NamesOf(good[..i])
        invariant Now(false) == CopyNames(tools, dir, start, done, pid)
      {
        assert Front(good[..i + 1]) == good[..i];
        NextNames(tools, dir, start, done, DataOf(good[i]), ManifestOf(good[i]), pid);
        ghost var all := NamesOf(good);
        NamesPrefix(good, i + 1);
        ok := CopyFile(DataOf(good[i]), pid);
        if !ok {
          StaysFailed(tools, dir, start, done + [DataOf(good[i])], all, pid);
          return false;
        }
        ok := CopyFile(ManifestOf(good[i]), pid);
        done := done + [DataOf(good[i]), ManifestOf(good[i])];
        if !ok {
          StaysFailed(tools, dir, start, done, all, pid);
          return false;
        }
      }
      assert good[..|good|] == good;
      ok := true;
    }
  }

  /** What a caller gains. */
  lemma CopyNamesGain(t: Tools, dir: Directory, dest: Dest, names: seq<Name>, pid: nat)
    ensures var r := CopyNames(t, dir, dest, names, pid);
            && BackedUp(t, dir, dest, names, pid, r) && Gained(t, dir, dest, names, r)
            && (!r.failed <==> forall name :: name in names ==> !Stops(t, dir, dest, name, pid))
            && (forall f :: Readable(dest, f) ==> f in r.dest && r.dest[f] == dest[f])
            && (Distinct(names) ==> Complete(t, dir, dest, names, pid, r))
  {
    hide CopyNames, Filled, Source, Reach, Stops, Landed;
    var r := CopyNames(t, dir, dest, names, pid);
    CopyNamesMeans(t, dir, dest, names, pid);
    BackedUpGains(t, dir, dest, names, pid, r);
    var n := Reach(t, dir, dest, names, pid);
    if r.failed {
      assert names[n] in names && Stops(t, dir, dest, names[n], pid);
    } else {
      forall name | name in names ensures !Stops(t, dir, dest, name, pid) {
        var k :| 0 <= k < |names| && names[k] == name;
      }
    }
    if Distinct(names) { CopiedCounts(t, dir, dest, names, pid); }
  }

  lemma NextNames(t: Tools, dir: Directory, dest: Dest, done: seq<Name>, a: Name, b: Name, pid: nat)
    ensures CopyNames(t, dir, dest, done + [a], pid) == CopyName(t, dir, CopyNames(t, dir, dest, done, pid), a, pid)
    ensures CopyNames(t, dir, dest, done + [a, b], pid)
        == CopyName(t, dir, CopyNames(t, dir, dest, done + [a], pid), b, pid)
  {
    hide CopyName;
    assert Front(done + [a]) == done && Front(done + [a, b]) == done + [a];
  }

  lemma {:induction false} NamesPrefix(days: seq<int>, n: nat)
    requires n <= |days|
    ensures NamesOf(days[..n]) <= NamesOf(days)
    ensures n > 0 ==> NamesOf(days[..n - 1]) + [DataOf(days[n - 1])] <= NamesOf(days)
  {
    if n == |days| {
      assert days[..n] == days;
      if n > 0 { assert Front(days) == days[..n - 1]; }
    } else {
      assert Front(days)[..n] == days[..n] && (n > 0 ==> Front(days)[..n - 1] == days[..n - 1]);
      NamesPrefix(Front(days), n);
    }
  }

  /** Nothing happens after an exception. */
  lemma {:induction false} StaysFailed(t: Tools, dir: Directory, dest: Dest, some: seq<Name>, all: seq<Name>, pid: nat)
    requires some <= all && CopyNames(t, dir, dest, some, pid).failed
    ensures CopyNames(t, dir, dest, all, pid) == CopyNames(t, dir, dest, some, pid)
    decreases all
  {
    if some != all {
      assert some <= Front(all);
      StaysFailed(t, dir, dest, some, Front(all), pid);
    }
  }
}
