/** Closed copies of finished days (src/core/archive.mjs): the rows of a day, packed, and a manifest
    that is written last and commits them. Gzip, JSON and SHA-256 are functions of a codec. */
module Archive {
  import opened Sequences
  import opened Days

  /** A ledger row. A time that cannot be read as one belongs to no day. */
  datatype Row = Row(number: nat, at: Option<int>, payload: string)

  datatype Manifest = Manifest(day: int, rows: nat, firstSeq: nat, lastSeq: nat, sha: string, gzSha: string,
                               gzBytes: nat, createdAt: int)

  /** `None` is a text or a file that does not parse, or does not unpack. */
  datatype Codec = Codec(toText: seq<Row> -> string, fromText: string -> Option<seq<Row>>,
                         zip: string -> string, unzip: string -> Option<string>, sha: string -> string)

  /** Packing loses nothing. Nothing is asked of the hash. */
  ghost predicate Faithful(c: Codec)
  {
    && (forall rows :: c.fromText(c.toText(rows)) == Some(rows))
    && (forall text :: c.unzip(c.zip(text)) == Some(text))
  }

  /** The archive directory: `events-<day>.jsonl.gz` and `events-<day>.manifest.json` by day. */
  datatype Directory = Directory(data: map<int, string>, manifests: map<int, Manifest>)

  datatype Write = PutData(day: int, bytes: string) | PutManifest(manifest: Manifest)

  function Put(dir: Directory, w: Write): Directory
  {
    match w
    case PutData(day, bytes) => dir.(data := dir.data[day := bytes])
    case PutManifest(m) => dir.(manifests := dir.manifests[m.day := m])
  }

  /** The directory after a list of atomic writes, and so what a crash leaves after some of them. */
  function PutAll(dir: Directory, writes: seq<Write>): Directory
  {
    if writes == [] then dir else Put(PutAll(dir, Front(writes)), Last(writes))
  }

  // ---------- rows and days ----------

  function DayOfRow(r: Row, offset: int): Option<int>
  {
    if r.at.None? then None else Some(DayOf(r.at.value, offset))
  }

  predicate IsClosed(r: Row, today: int, offset: int)
  {
    DayOfRow(r, offset).Some? && DayOfRow(r, offset).value < today
  }

  function RowsOn(rows: seq<Row>, day: int, offset: int): seq<Row>
  {
    if rows == [] then []
    else RowsOn(Front(rows), day, offset) + (if DayOfRow(Last(rows), offset) == Some(day) then [Last(rows)] else [])
  }

  ghost predicate Increasing(rows: seq<Row>)
  {
    forall i, j :: 0 <= i < j < |rows| ==> rows[i].number < rows[j].number
  }

  /** `EventStore`: the ledger's numbers run from 1 without a gap. */
  ghost predicate Numbered(ledger: seq<Row>)
  {
    forall i :: 0 <= i < |ledger| ==> ledger[i].number == i + 1
  }

  ghost predicate Ascending(days: seq<int>)
  {
    forall i, j :: 0 <= i < j < |days| ==> days[i] < days[j]
  }

  function InsertDay(day: int, days: seq<int>): seq<int>
  {
    if days == [] || day < days[0] then [day] + days else [days[0]] + InsertDay(day, days[1..])
  }

  lemma Prepended(day: int, days: seq<int>)
    requires Ascending(days) && forall d :: d in days ==> day < d
    ensures Ascending([day] + days)
  {
    forall i | 0 <= i < |days| ensures day < days[i] { assert days[i] in days; }
  }

  lemma {:induction false} InsertDayKeeps(day: int, days: seq<int>)
    requires Ascending(days) && day !in days
    ensures Ascending(InsertDay(day, days))
    ensures forall d :: d in InsertDay(day, days) <==> d == day || d in days
  {
    if days != [] && day >= days[0] {
      InsertDayKeeps(day, days[1..]);
      assert days == [days[0]] + days[1..];
      Prepended(days[0], InsertDay(day, days[1..]));
    } else {
      assert forall d :: d in days ==> day < d;
      Prepended(day, days);
    }
  }

  lemma HasKey<K, T>(m: map<K, T>) returns (key: K)
    requires m != map[]
    ensures key in m
  {
    key :| key in m;
  }

  lemma IntKey<T>(m: map<int, T>)
    requires m != map[]
    ensures exists d :: d in m
  {
    var d := HasKey(m);
  }

  /** The keys of a map in order. */
  ghost function SortedKeys<T>(m: map<int, T>): (days: seq<int>)
    ensures Ascending(days) && forall d :: d in days <==> d in m
    decreases |m|
  {
    if m == map[] then []
    else
      IntKey(m);
      var d :| d in m;
      assert |m - {d}| < |m| by { assert m.Keys == (m - {d}).Keys + {d}; }
      InsertDayKeeps(d, SortedKeys(m - {d}));
      InsertDay(d, SortedKeys(m - {d}))
  }

  lemma {:induction false} AscendingUnique(a: seq<int>, b: seq<int>)
    requires Ascending(a) && Ascending(b) && forall d :: d in a <==> d in b
    ensures a == b
  {
    if a != [] {
      assert a[0] in b && b[0] in a;
      assert forall d :: d in a[1..] <==> d in a && d != a[0];
      assert forall d :: d in b[1..] <==> d in b && d != b[0];
      AscendingUnique(a[1..], b[1..]);
      assert a == [a[0]] + a[1..] && b == [b[0]] + b[1..];
    } else {
      FirstIn(b);
    }
  }

  method SortDays<T>(m: map<int, T>) returns (days: seq<int>)
    ensures days == SortedKeys(m)
  {
    var left := m;
    days := [];
    while left != map[]
      invariant Ascending(days)
      invariant forall d :: d in m <==> d in days || d in left
      invariant forall d :: d in days ==> d !in left
      decreases |left|
    {
      IntKey(left);
      var d :| d in left;
      assert |left - {d}| < |left| by { assert left.Keys == (left - {d}).Keys + {d}; }
      InsertDayKeeps(d, days);
      days, left := InsertDay(d, days), left - {d};
    }
    AscendingUnique(days, SortedKeys(m));
  }

  // ---------- one run ----------

  /** `byDay`: the rows of every day before today. */
  ghost function Grouped(events: seq<Row>, today: int, offset: int): map<int, seq<Row>>
  {
    map r | r in events && IsClosed(r, today, offset) ::
      DayOfRow(r, offset).value := RowsOn(events, DayOfRow(r, offset).value, offset)
  }

  function ManifestFor(c: Codec, day: int, rows: seq<Row>, createdAt: int): Manifest
    requires rows != []
  {
    var text := c.toText(rows);
    Manifest(day, |rows|, rows[0].number, Last(rows).number, c.sha(text), c.sha(c.zip(text)), |c.zip(text)|, createdAt)
  }

  function DayWrites(c: Codec, dir: Directory, rows: seq<Row>, day: int, now: int): seq<Write>
    requires rows != []
  {
    if day in dir.manifests then []
    else [PutData(day, c.zip(c.toText(rows))), PutManifest(ManifestFor(c, day, rows, now))]
  }

  function Extra(rows: seq<Row>, lastSeq: nat): seq<Row>
  {
    if rows == [] then []
    else Extra(Front(rows), lastSeq) + (if Last(rows).number > lastSeq then [Last(rows)] else [])
  }

  function Manifests(writes: seq<Write>): seq<Manifest>
  {
    if writes == [] then []
    else Manifests(Front(writes)) + (if Last(writes).PutManifest? then [Last(writes).manifest] else [])
  }

  datatype Late = Late(day: int, rows: seq<Row>)

  function DayLate(dir: Directory, rows: seq<Row>, day: int): seq<Late>
  {
    if day !in dir.manifests then []
    else
      var extra := Extra(rows, dir.manifests[day].lastSeq);
      if extra == [] then [] else [Late(day, extra)]
  }

  predicate HaveRows(events: seq<Row>, days: seq<int>, offset: int)
  {
    forall k :: 0 <= k < |days| ==> RowsOn(events, days[k], offset) != []
  }

  function Writes(c: Codec, dir: Directory, events: seq<Row>, days: seq<int>, offset: int, now: int): seq<Write>
    requires HaveRows(events, days, offset)
  {
    if days == [] then []
    else
      Writes(c, dir, events, Front(days), offset, now)
          + DayWrites(c, dir, RowsOn(events, Last(days), offset), Last(days), now)
  }

  function LateRows(dir: Directory, events: seq<Row>, days: seq<int>, offset: int): seq<Late>
  {
    if days == [] then []
    else LateRows(dir, events, Front(days), offset) + DayLate(dir, RowsOn(events, Last(days), offset), Last(days))
  }

  ghost function RunDays(events: seq<Row>, now: int, offset: int): (days: seq<int>)
    ensures Ascending(days) && HaveRows(events, days, offset)
    ensures forall d ::
              d in days
              <==> exists r :: r in events && IsClosed(r, DayOf(now, offset), offset) && DayOfRow(r, offset) == Some(d)
  {
    var byDay := Grouped(events, DayOf(now, offset), offset);
    var days := SortedKeys(byDay);
    GroupedHaveRows(events, DayOf(now, offset), offset);
    days
  }

  lemma {:induction false} RowsOnHas(rows: seq<Row>, day: int, offset: int, r: Row)
    ensures r in RowsOn(rows, day, offset) <==> r in rows && DayOfRow(r, offset) == Some(day)
  {
    if rows != [] {
      RowsOnHas(Front(rows), day, offset, r);
      assert rows == Front(rows) + [Last(rows)];
    }
  }

  lemma GroupedHaveRows(events: seq<Row>, today: int, offset: int)
    ensures forall d :: d in Grouped(events, today, offset) ==> RowsOn(events, d, offset) != []
  {
    forall d | d in Grouped(events, today, offset) ensures RowsOn(events, d, offset) != [] {
      var r :| r in events && IsClosed(r, today, offset) && d == DayOfRow(r, offset).value;
      RowsOnHas(events, d, offset, r);
    }
  }

  datatype Reason = Missing | Broken | GzDigestMismatch | ContentDigestMismatch | RowCountMismatch | SeqNotIncreasing

  /** `verifyArchive`; `Missing` and `Broken` are exceptions, from the read of a file and from unpacking
      or parsing it. */
  ghost function Verify(c: Codec, dir: Directory, day: int): Result<seq<Row>, Reason>
  {
    if day !in dir.manifests || day !in dir.data then Err(Missing)
    else
      var m, gz := dir.manifests[day], dir.data[day];
      if c.sha(gz) != m.gzSha then Err(GzDigestMismatch)
      else
        var text := c.unzip(gz);
        if text.None? then Err(Broken)
        else if c.sha(text.value) != m.sha then Err(ContentDigestMismatch)
        else
          var rows := c.fromText(text.value);
          if rows.None? then Err(Broken)
          else if |rows.value| != m.rows then Err(RowCountMismatch)
          else if !Increasing(rows.value) then Err(SeqNotIncreasing)
          else Ok(rows.value)
  }

  /** What each answer says of the two files. */
  lemma VerifySays(c: Codec, dir: Directory, day: int)
    requires day in dir.manifests && day in dir.data
    ensures var m, gz := dir.manifests[day], dir.data[day];
            var text := c.unzip(gz);
            var digests := c.sha(gz) == m.gzSha && text.Some? && c.sha(text.value) == m.sha;
            match Verify(c, dir, day)
            case Ok(rows) => digests && c.fromText(text.value) == Some(rows) && |rows| == m.rows && Increasing(rows)
            case Err(GzDigestMismatch) => c.sha(gz) != m.gzSha
            case Err(ContentDigestMismatch) => c.sha(gz) == m.gzSha && text.Some? && c.sha(text.value) != m.sha
            case Err(Broken) => c.sha(gz) == m.gzSha && (text.None? || (digests && c.fromText(text.value).None?))
            case Err(RowCountMismatch) =>
              digests && c.fromText(text.value).Some? && |c.fromText(text.value).value| != m.rows
            case Err(SeqNotIncreasing) =>
              && digests && c.fromText(text.value).Some?
              && var rows := c.fromText(text.value).value;
              |rows| == m.rows && !Increasing(rows)
            case Err(Missing) => false
  {
  }

  function Insert(r: Row, rows: seq<Row>): seq<Row>
  {
    if rows == [] || r.number <= rows[0].number then [r] + rows else [rows[0]] + Insert(r, rows[1..])
  }

  function SortRows(rows: seq<Row>): seq<Row>
  {
    if rows == [] then [] else Insert(rows[0], SortRows(rows[1..]))
  }

  /** The copies of some days, one after the other. */
  ghost function Copies(c: Codec, dir: Directory, days: seq<int>): Result<seq<Row>, Reason>
  {
    if days == [] then Ok([])
    else
      var before := Copies(c, dir, Front(days));
      if before.Err? then before
      else
        var checked := Verify(c, dir, Last(days));
        if checked.Err? then checked else Ok(before.value + checked.value)
  }

  /** `readArchivedRows` */
  ghost function ReadArchived(c: Codec, dir: Directory): Result<seq<Row>, Reason>
  {
    var copies := Copies(c, dir, SortedKeys(dir.manifests));
    if copies.Err? then copies else Ok(SortRows(copies.value))
  }

  class Archiver {
    const codec: Codec
    const offset: int
    var dir: Directory
    ghost var log: seq<Write>

    constructor (codec: Codec, offset: int)
      ensures this.codec == codec && this.offset == offset && dir == Directory(map[], map[]) && log == []
    {
      this.codec, this.offset, this.dir, this.log := codec, offset, Directory(map[], map[]), [];
    }

    /** `atomicPrivateWrite`: a temporary file and a rename. */
    method AtomicWrite(w: Write)
      modifies this`dir, this`log
      ensures dir == Put(old(dir), w) && log == old(log) + [w]
    {
      dir := Put(dir, w);
      log := log + [w];
    }

    /** The rows of every day before today, grouped. */
    method GroupByDay(events: seq<Row>, today: int) returns (byDay: map<int, seq<Row>>)
      ensures byDay == Grouped(events, today, offset)
    {
      hide Grouped, RowsOn, DayOf;
      byDay := map[];
      GroupNothing(today, offset);
      for i := 0 to |events|
        invariant byDay == Grouped(events[..i], today, offset)
      {
        var row := events[i];
        var day := DayOfRow(row, offset);
        GroupNext(events[..i], row, today, offset);
        assert events[..i + 1] == events[..i] + [row];
        assert IsClosed(row, today, offset) <==> day.Some? && day.value < today;
        if day.None? || day.value >= today { continue; }
        if day.value !in byDay {
          byDay := byDay[day.value := []];
        }
        byDay := byDay[day.value := byDay[day.value] + [row]];
      }
      assert events[..|events|] == events;
    }

    method ArchiveClosedDays(events: seq<Row>, now: int) returns (written: seq<Manifest>, late: seq<Late>)
      modifies this`dir, this`log
      ensures var writes := Writes(codec, old(dir), events, RunDays(events, now, offset), offset, now);
              && log == old(log) + writes
              && dir == PutAll(old(dir), writes)
              && written == Manifests(writes)
      ensures late == LateRows(old(dir), events, RunDays(events, now, offset), offset)
    {
      hide RowsOn, SortedKeys, Extra, ManifestFor;
      var today := DayOf(now, offset);
      var byDay := GroupByDay(events, today);
      ghost var before := dir;
      var manifests := dir.manifests;
      var days := SortDays(byDay);
      assert days == RunDays(events, now, offset);
      written, late := [], [];
      ghost var writes: seq<Write> := [];
      for i := 0 to |days|
        invariant writes == Writes(codec, before, events, days[..i], offset, now)
        invariant log == old(log) + writes && dir == PutAll(before, writes) && written == Manifests(writes)
        invariant late == LateRows(before, events, days[..i], offset)
      {
        var day := days[i];
        assert day in byDay;
        NextDay(codec, before, events, days, i, offset, now);
        var newManifests, newLate := ArchiveDay(before, manifests, day, byDay[day], now);
        ghost var more := DayWrites(codec, before, byDay[day], day, now);
        PutAllAppend(before, writes, more);
        ManifestsAppend(writes, more);
        Assoc(old(log), writes, more);
        writes, written, late := writes + more, written + newManifests, late + newLate;
      }
      assert days[..|days|] == days;
    }

    /** One day of a run: a day that is closed already is left alone and its extra rows reported;
        otherwise the data is written, and then the manifest that commits it. */
    method ArchiveDay(ghost before: Directory, manifests: map<int, Manifest>, day: int, rows: seq<Row>, now: int)
      returns (written: seq<Manifest>, late: seq<Late>)
      requires rows != [] && manifests == before.manifests
      modifies this`dir, this`log
      ensures var writes := DayWrites(codec, before, rows, day, now);
              log == old(log) + writes && dir == PutAll(old(dir), writes) && written == Manifests(writes)
      ensures late == DayLate(before, rows, day)
    {
      hide Extra, ManifestFor, Manifests, PutAll;
      if day in manifests {
        assert PutAll(dir, []) == dir && Manifests([]) == [] by { NoWrites(dir); }
        assert log + [] == log;
        var extra := Extra(rows, manifests[day].lastSeq);
        return [], if extra == [] then [] else [Late(day, extra)];
      }
      var gz := codec.zip(codec.toText(rows));
      var manifest := ManifestFor(codec, day, rows, now);
      AtomicWrite(PutData(day, gz));
      AtomicWrite(PutManifest(manifest));
      TwoWrites(old(dir), PutData(day, gz), PutManifest(manifest));
      return [manifest], [];
    }

    method VerifyArchive(day: int) returns (result: Result<seq<Row>, Reason>)
      ensures result == Verify(codec, dir, day)
    {
      if day !in dir.manifests || day !in dir.data { return Err(Missing); }
      var m, gz := dir.manifests[day], dir.data[day];
      if codec.sha(gz) != m.gzSha { return Err(GzDigestMismatch); }
      var text := codec.unzip(gz);
      if text.None? { return Err(Broken); }
      if codec.sha(text.value) != m.sha { return Err(ContentDigestMismatch); }
      var parsed := codec.fromText(text.value);
      if parsed.None? { return Err(Broken); }
      var rows := parsed.value;
      if |rows| != m.rows { return Err(RowCountMismatch); }
      var i := 1;
      while i < |rows|
        invariant 1 <= i && (i <= |rows| || rows == [])
        invariant forall a, b :: 0 <= a < b < i && b < |rows| ==> rows[a].number < rows[b].number
      {
        if !(rows[i].number > rows[i - 1].number) {
          assert !Increasing(rows);
          return Err(SeqNotIncreasing);
        }
        i := i + 1;
      }
      result := Ok(rows);
    }

    method ReadArchivedRows() returns (result: Result<seq<Row>, Reason>)
      ensures result == ReadArchived(codec, dir)
    {
      hide SortedKeys, Verify, SortRows;
      var days := SortDays(dir.manifests);
      var out := [];
      for i := 0 to |days|
        invariant Copies(codec, dir, days[..i]) == Ok(out)
      {
        assert Front(days[..i + 1]) == days[..i];
        var checked := VerifyArchive(days[i]);
        if checked.Err? {
          CopiesFail(codec, dir, days, i + 1);
          return checked;
        }
        out := out + checked.value;
      }
      assert days[..|days|] == days;
      result := Ok(SortRows(out));
    }
  }

  lemma RowsOnNext(rows: seq<Row>, row: Row, day: int, offset: int)
    ensures RowsOn(rows + [row], day, offset) == RowsOn(rows, day, offset)
        + (if DayOfRow(row, offset) == Some(day) then [row] else [])
  {
    assert Front(rows + [row]) == rows;
  }

  function WithRow(byDay: map<int, seq<Row>>, row: Row, today: int, offset: int): map<int, seq<Row>>
  {
    if !IsClosed(row, today, offset) then byDay
    else
      var day := DayOfRow(row, offset).value;
      byDay[day := (if day in byDay then byDay[day] else []) + [row]]
  }

  lemma GroupNothing(today: int, offset: int)
    ensures Grouped([], today, offset) == map[]
  {
  }

  lemma GroupNext(rows: seq<Row>, row: Row, today: int, offset: int)
    ensures var before := Grouped(rows, today, offset);
            Grouped(rows + [row], today, offset) == WithRow(before, row, today, offset)
  {
    hide RowsOn, DayOf;
    var before, after := Grouped(rows, today, offset), Grouped(rows + [row], today, offset);
    assert row in rows + [row];
    assert forall r :: r in rows + [row] <==> r in rows || r == row;
    var expected := WithRow(before, row, today, offset);
    assert after.Keys == expected.Keys;
    forall d | d in after ensures after[d] == expected[d] {
      RowsOnNext(rows, row, d, offset);
      if d !in before { NoRows(rows, d, today, offset); }
    }
  }

  lemma NoRows(rows: seq<Row>, day: int, today: int, offset: int)
    requires day < today && day !in Grouped(rows, today, offset)
    ensures RowsOn(rows, day, offset) == []
  {
    if RowsOn(rows, day, offset) != [] {
      var r := RowsOn(rows, day, offset)[0];
      RowsOnHas(rows, day, offset, r);
      assert IsClosed(r, today, offset);
    }
  }

  lemma {:induction false} PutAllAppend(dir: Directory, a: seq<Write>, b: seq<Write>)
    ensures PutAll(dir, a + b) == PutAll(PutAll(dir, a), b)
  {
    if b == [] {
      assert a + b == a;
    } else {
      assert Front(a + b) == a + Front(b);
      PutAllAppend(dir, a, Front(b));
    }
  }

  lemma {:induction false} ManifestsAppend(a: seq<Write>, b: seq<Write>)
    ensures Manifests(a + b) == Manifests(a) + Manifests(b)
  {
    if b == [] {
      assert a + b == a;
    } else {
      assert Front(a + b) == a + Front(b) && Last(a + b) == Last(b);
      ManifestsAppend(a, Front(b));
      Assoc(Manifests(a), Manifests(Front(b)), if Last(b).PutManifest? then [Last(b).manifest] else []);
    }
  }

  lemma NoWrites(dir: Directory)
    ensures PutAll(dir, []) == dir && Manifests([]) == []
  {
  }

  lemma TwoWrites(dir: Directory, a: Write, b: Write)
    ensures PutAll(dir, [a, b]) == Put(Put(dir, a), b)
    ensures Manifests([a, b]) == Manifests([a]) + Manifests([b])
    ensures Manifests([a]) == if a.PutManifest? then [a.manifest] else []
    ensures Manifests([b]) == if b.PutManifest? then [b.manifest] else []
  {
    assert Front([a, b]) == [a] && Front([a]) == [] && Front([b]) == [];
    assert PutAll(dir, [a]) == Put(PutAll(dir, []), a);
  }

  lemma NextDay(c: Codec, dir: Directory, events: seq<Row>, days: seq<int>, i: nat, offset: int, now: int)
    requires HaveRows(events, days, offset) && i < |days|
    ensures Writes(c, dir, events, days[..i + 1], offset, now)
         == Writes(c, dir, events, days[..i], offset, now)
             + DayWrites(c, dir, RowsOn(events, days[i], offset), days[i], now)
    ensures LateRows(dir, events, days[..i + 1], offset)
         == LateRows(dir, events, days[..i], offset) + DayLate(dir, RowsOn(events, days[i], offset), days[i])
  {
    assert Front(days[..i + 1]) == days[..i] && Last(days[..i + 1]) == days[i];
  }

  lemma {:induction false} CopiesFail(c: Codec, dir: Directory, days: seq<int>, i: nat)
    requires i <= |days| && Copies(c, dir, days[..i]).Err?
    ensures Copies(c, dir, days) == Copies(c, dir, days[..i])
  {
    if i == |days| {
      assert days[..i] == days;
    } else {
      assert Front(days)[..i] == days[..i];
      CopiesFail(c, dir, Front(days), i);
    }
  }
}
