/** Archive runs over time: a ledger that only grows, with any row times; runs under a clock that may
    step back; and a crash after any of a run's writes. One step here is one append, the synchronous
    start of a run, or one atomic file write. */
module ArchiveRuns {
  import opened Sequences
  import opened Days
  import opened Archive

  /** A run: the rows and the directory it started from, its clock, and how many writes are done. */
  datatype Run = Run(events: seq<Row>, start: Directory, now: int, done: nat)

  datatype State = State(ledger: seq<Row>, dir: Directory, run: Option<Run>)

  /** A `Begin` while a run is unfinished is a restart after a crash. */
  datatype Event = Append(at: Option<int>, payload: string) | Begin(now: int) | WriteNext

  ghost function RunWrites(c: Codec, offset: int, r: Run): seq<Write>
  {
    Writes(c, r.start, r.events, RunDays(r.events, r.now, offset), offset, r.now)
  }

  ghost function RunLate(offset: int, r: Run): seq<Late>
  {
    LateRows(r.start, r.events, RunDays(r.events, r.now, offset), offset)
  }

  ghost predicate Finished(c: Codec, offset: int, r: Run)
  {
    r.done == |RunWrites(c, offset, r)|
  }

  ghost function Step(c: Codec, offset: int, s: State, e: Event): State
  {
    match e
    case Append(at, payload) => s.(ledger := s.ledger + [Row(|s.ledger| + 1, at, payload)])
    case Begin(now) => s.(run := Some(Run(s.ledger, s.dir, now, 0)))
    case WriteNext =>
      if s.run.None? || s.run.value.done >= |RunWrites(c, offset, s.run.value)| then s
      else
        var r := s.run.value;
        s.(dir := Put(s.dir, RunWrites(c, offset, r)[r.done]), run := Some(r.(done := r.done + 1)))
  }

  ghost function Steps(c: Codec, offset: int, events: seq<Event>): State
  {
    if events == [] then State([], Directory(map[], map[]), None)
    else Step(c, offset, Steps(c, offset, Front(events)), Last(events))
  }

  // ---------- what a committed copy is ----------

  /** The rows a closed copy stands for: that day's rows up to the last number it saw. */
  function CopyOf(ledger: seq<Row>, m: Manifest, offset: int): seq<Row>
    requires m.lastSeq <= |ledger|
  {
    RowsOn(ledger[..m.lastSeq], m.day, offset)
  }

  ghost predicate Copied(c: Codec, offset: int, ledger: seq<Row>, dir: Directory, day: int)
    requires day in dir.manifests
  {
    var m := dir.manifests[day];
    && m.day == day && m.lastSeq <= |ledger| && day in dir.data
    && CopyOf(ledger, m, offset) != []
    && dir.data[day] == c.zip(c.toText(CopyOf(ledger, m, offset)))
    && m == ManifestFor(c, day, CopyOf(ledger, m, offset), m.createdAt)
  }

  ghost predicate Committed(c: Codec, offset: int, ledger: seq<Row>, dir: Directory)
  {
    forall d :: d in dir.manifests ==> Copied(c, offset, ledger, dir, d)
  }

  /** A closed copy is the same file in both. */
  ghost predicate Kept(before: Directory, after: Directory)
  {
    forall d :: d in before.manifests && d in before.data ==>
      d in after.manifests && after.manifests[d] == before.manifests[d] && d in after.data
          && after.data[d] == before.data[d]
  }

  ghost predicate SameDay(before: Directory, after: Directory, d: int)
  {
    && (d in before.manifests <==> d in after.manifests)
    && (d in before.manifests ==> after.manifests[d] == before.manifests[d])
    && (d in before.data <==> d in after.data)
    && (d in before.data ==> after.data[d] == before.data[d])
  }

  lemma CopiedElsewhere(c: Codec, offset: int, ledger: seq<Row>, before: Directory, after: Directory, d: int)
    requires d in before.manifests && Copied(c, offset, ledger, before, d) && SameDay(before, after, d)
    ensures d in after.manifests && Copied(c, offset, ledger, after, d)
  {
  }

  lemma {:induction false} RowsOnOrder(rows: seq<Row>, day: int, offset: int)
    requires Increasing(rows)
    ensures Increasing(RowsOn(rows, day, offset))
  {
    if rows != [] {
      RowsOnOrder(Front(rows), day, offset);
      var before := RowsOn(Front(rows), day, offset);
      forall i | 0 <= i < |before| ensures before[i].number < Last(rows).number {
        RowsOnHas(Front(rows), day, offset, before[i]);
      }
    }
  }

  /** Cutting the ledger at the last number of a day's copy loses none of the rows in it. */
  lemma {:induction false} CutAtLast(ledger: seq<Row>, n: nat, day: int, offset: int)
    requires Numbered(ledger) && n <= |ledger| && RowsOn(ledger[..n], day, offset) != []
    ensures var last := Last(RowsOn(ledger[..n], day, offset)).number;
            last <= n && RowsOn(ledger[..last], day, offset) == RowsOn(ledger[..n], day, offset)
  {
    var rows := ledger[..n];
    assert Front(rows) == ledger[..n - 1];
    if DayOfRow(Last(rows), offset) != Some(day) {
      CutAtLast(ledger, n - 1, day, offset);
    }
  }

  lemma NewCopy(c: Codec, offset: int, ledger: seq<Row>, n: nat, dir: Directory, day: int, now: int)
    requires Numbered(ledger) && n <= |ledger| && RowsOn(ledger[..n], day, offset) != []
    ensures var rows := RowsOn(ledger[..n], day, offset);
            var written := Put(dir, PutData(day, c.zip(c.toText(rows))));
            var after := Put(written, PutManifest(ManifestFor(c, day, rows, now)));
            Copied(c, offset, ledger, after, day)
  {
    CutAtLast(ledger, n, day, offset);
  }

  // ---------- every prefix of a run's writes leaves a committed directory ----------

  ghost predicate GoodPrefix(c: Codec, offset: int, ledger: seq<Row>, start: Directory, days: seq<int>, dir: Directory)
  {
    && Committed(c, offset, ledger, dir)
    && Kept(start, dir)
    && forall d :: d !in days ==> SameDay(start, dir, d)
  }

  lemma {:induction false} PrefixGood(c: Codec, offset: int, ledger: seq<Row>, n: nat, start: Directory, days: seq<int>,
                                      now: int, k: nat)
    requires Numbered(ledger) && n <= |ledger| && HaveRows(ledger[..n], days, offset) && Ascending(days)
    requires Committed(c, offset, ledger, start)
    requires k <= |Writes(c, start, ledger[..n], days, offset, now)|
    ensures var writes := Writes(c, start, ledger[..n], days, offset, now);
            var dir := PutAll(start, writes[..k]);
            && GoodPrefix(c, offset, ledger, start, days, dir)
            && (k == |writes| ==> forall d :: d in days ==> d in dir.manifests)
    decreases days
  {
    if days != [] {
      var first := Writes(c, start, ledger[..n], Front(days), offset, now);
      var rows := RowsOn(ledger[..n], Last(days), offset);
      var more := DayWrites(c, start, rows, Last(days), now);
      if k < |first| {
        PrefixGood(c, offset, ledger, n, start, Front(days), now, k);
        assert (first + more)[..k] == first[..k];
      } else {
        PrefixGood(c, offset, ledger, n, start, Front(days), now, |first|);
        assert first[..|first|] == first;
        assert (first + more)[..k] == first + more[..k - |first|];
        PutAllAppend(start, first, more[..k - |first|]);
        DayGood(c, offset, ledger, n, start, days, now, PutAll(start, first), k - |first|);
      }
    }
  }

  lemma DayGood(c: Codec, offset: int, ledger: seq<Row>, n: nat, start: Directory, days: seq<int>, now: int,
      dir: Directory, k: nat)
    requires Numbered(ledger) && n <= |ledger| && Ascending(days) && days != []
    requires RowsOn(ledger[..n], Last(days), offset) != []
    requires GoodPrefix(c, offset, ledger, start, Front(days), dir)
    requires forall d :: d in Front(days) ==> d in dir.manifests
    requires k <= |DayWrites(c, start, RowsOn(ledger[..n], Last(days), offset), Last(days), now)|
    ensures var more := DayWrites(c, start, RowsOn(ledger[..n], Last(days), offset), Last(days), now);
            var after := PutAll(dir, more[..k]);
            && GoodPrefix(c, offset, ledger, start, days, after)
            && (k == |more| ==> forall d :: d in days ==> d in after.manifests)
  {
    hide RowsOn, CopyOf, Copied, Committed, Kept, ManifestFor, PutAll, DayWrites;
    var day := Last(days);
    var rows := RowsOn(ledger[..n], day, offset);
    var more := DayWrites(c, start, rows, day, now);
    assert days == Front(days) + [day];
    assert day !in Front(days);
    var after := PutAll(dir, more[..k]);
    assert SameDay(start, dir, day);
    DayAfter(c, start, dir, rows, day, now, k);
    if k > 0 {
      if k == 2 { NewCopy(c, offset, ledger, n, dir, day, now); }
      OneDayTouched(c, offset, ledger, start, days, dir, after);
    }
  }

  /** What the writes of a day have done after some of them. */
  lemma DayAfter(c: Codec, start: Directory, dir: Directory, rows: seq<Row>, day: int, now: int, k: nat)
    requires rows != [] && k <= |DayWrites(c, start, rows, day, now)| && SameDay(start, dir, day)
    ensures var more := DayWrites(c, start, rows, day, now);
            var after := PutAll(dir, more[..k]);
            && |more| == (if day in start.manifests then 0 else 2)
            && (k == 0 ==> after == dir)
            && (k == 1 ==> after == Put(dir, PutData(day, c.zip(c.toText(rows)))))
            && (k == 2 ==>
                  && after == Put(Put(dir, PutData(day, c.zip(c.toText(rows)))),
                                PutManifest(ManifestFor(c, day, rows, now)))
                  && day in after.manifests)
            && forall d :: d != day ==> SameDay(dir, after, d)
  {
    hide ManifestFor;
    var more := DayWrites(c, start, rows, day, now);
    ManifestDay(c, day, rows, now);
    if k == 0 {
      assert more[..k] == [];
    } else {
      TwoWrites(dir, more[0], more[1]);
      OneWrite(dir, more[0]);
      assert more[..1] == [more[0]] && more[..2] == more;
    }
  }

  lemma OneWrite(dir: Directory, w: Write)
    ensures PutAll(dir, [w]) == Put(dir, w)
  {
    assert Front([w]) == [];
  }

  lemma ManifestDay(c: Codec, day: int, rows: seq<Row>, now: int)
    requires rows != []
    ensures ManifestFor(c, day, rows, now).day == day
  {
  }

  /** Working on the last day only, which is not closed yet. */
  lemma OneDayTouched(c: Codec, offset: int, ledger: seq<Row>, start: Directory, days: seq<int>, dir: Directory,
      after: Directory)
    requires days != [] && Last(days) !in Front(days) && Last(days) !in start.manifests
    requires GoodPrefix(c, offset, ledger, start, Front(days), dir)
    requires forall d :: d != Last(days) ==> SameDay(dir, after, d)
    requires Last(days) in after.manifests ==> Copied(c, offset, ledger, after, Last(days))
    ensures GoodPrefix(c, offset, ledger, start, days, after)
  {
    hide Copied;
    assert days == Front(days) + [Last(days)];
    forall d | d in after.manifests ensures Copied(c, offset, ledger, after, d) {
      if d != Last(days) {
        assert SameDay(dir, after, d);
        CopiedElsewhere(c, offset, ledger, dir, after, d);
      }
    }
    forall d | d !in days ensures SameDay(start, after, d) {
      assert SameDay(start, dir, d) && SameDay(dir, after, d);
    }
    forall d | d in start.manifests ensures SameDay(dir, after, d) {
    }
  }

  // ---------- the invariant ----------

  ghost predicate RunOk(c: Codec, offset: int, s: State)
  {
    s.run.Some? ==>
      var r := s.run.value;
      && |r.events| <= |s.ledger| && r.events == s.ledger[..|r.events|]
      && Committed(c, offset, s.ledger, r.start)
      && r.done <= |RunWrites(c, offset, r)|
      && s.dir == PutAll(r.start, RunWrites(c, offset, r)[..r.done])
  }

  ghost predicate Good(c: Codec, offset: int, s: State)
  {
    Numbered(s.ledger) && Committed(c, offset, s.ledger, s.dir) && RunOk(c, offset, s)
  }

  lemma Grows(c: Codec, offset: int, ledger: seq<Row>, row: Row, dir: Directory)
    requires Committed(c, offset, ledger, dir)
    ensures Committed(c, offset, ledger + [row], dir)
  {
    forall d | d in dir.manifests ensures Copied(c, offset, ledger + [row], dir, d) {
      assert Copied(c, offset, ledger, dir, d);
      var m := dir.manifests[d];
      assert (ledger + [row])[..m.lastSeq] == ledger[..m.lastSeq];
    }
  }

  /** What a run that is under way has left so far. */
  lemma RunSoFar(c: Codec, offset: int, s: State)
    requires Good(c, offset, s) && s.run.Some?
    ensures var r := s.run.value;
            && GoodPrefix(c, offset, s.ledger, r.start, RunDays(r.events, r.now, offset), s.dir)
            && (Finished(c, offset, r) ==> forall d :: d in RunDays(r.events, r.now, offset) ==> d in s.dir.manifests)
  {
    var r := s.run.value;
    PrefixGood(c, offset, s.ledger, |r.events|, r.start, RunDays(r.events, r.now, offset), r.now, r.done);
  }

  lemma StepGood(c: Codec, offset: int, s: State, e: Event)
    requires Good(c, offset, s)
    ensures Good(c, offset, Step(c, offset, s, e))
    ensures Kept(s.dir, Step(c, offset, s, e).dir)
  {
    hide RunWrites, Committed, RunDays;
    match e
    case Append(at, payload) =>
      Grows(c, offset, s.ledger, Row(|s.ledger| + 1, at, payload), s.dir);
      if s.run.Some? { Grows(c, offset, s.ledger, Row(|s.ledger| + 1, at, payload), s.run.value.start); }
    case Begin(now) =>
      assert s.ledger[..|s.ledger|] == s.ledger;
    case WriteNext =>
      if s.run.Some? && s.run.value.done < |RunWrites(c, offset, s.run.value)| { WriteGood(c, offset, s); }
  }

  lemma WriteGood(c: Codec, offset: int, s: State)
    requires Good(c, offset, s) && s.run.Some? && s.run.value.done < |RunWrites(c, offset, s.run.value)|
    ensures Good(c, offset, Step(c, offset, s, WriteNext))
    ensures Kept(s.dir, Step(c, offset, s, WriteNext).dir)
  {
    hide Committed, RunDays, Writes;
    var r := s.run.value;
    var writes := RunWrites(c, offset, r);
    assert Front(writes[..r.done + 1]) == writes[..r.done] && Last(writes[..r.done + 1]) == writes[r.done];
    var after := Step(c, offset, s, WriteNext);
    PrefixGood(c, offset, s.ledger, |r.events|, r.start, RunDays(r.events, r.now, offset), r.now, r.done);
    PrefixGood(c, offset, s.ledger, |r.events|, r.start, RunDays(r.events, r.now, offset), r.now, r.done + 1);
    WriteTouches(c, offset, s.ledger, |r.events|, r.start, RunDays(r.events, r.now, offset), r.now, r.done);
  }

  function DayOfWrite(w: Write): int
  {
    if w.PutData? then w.day else w.manifest.day
  }

  /** No write of a run touches a day that is closed when it happens. */
  lemma {:induction false} WriteTouches(c: Codec, offset: int, ledger: seq<Row>, n: nat, start: Directory,
                                        days: seq<int>, now: int, k: nat)
    requires Numbered(ledger) && n <= |ledger| && HaveRows(ledger[..n], days, offset) && Ascending(days)
    requires Committed(c, offset, ledger, start)
    requires k < |Writes(c, start, ledger[..n], days, offset, now)|
    ensures var writes := Writes(c, start, ledger[..n], days, offset, now);
            DayOfWrite(writes[k]) !in PutAll(start, writes[..k]).manifests
    decreases days
  {
    hide Committed, RowsOn, Copied, DayOfWrite, ManifestFor, Kept;
    var first := Writes(c, start, ledger[..n], Front(days), offset, now);
    var rows := RowsOn(ledger[..n], Last(days), offset);
    var more := DayWrites(c, start, rows, Last(days), now);
    if k < |first| {
      WriteTouches(c, offset, ledger, n, start, Front(days), now, k);
      assert (first + more)[..k] == first[..k];
    } else {
      PrefixGood(c, offset, ledger, n, start, Front(days), now, |first|);
      assert first[..|first|] == first;
      assert (first + more)[..k] == first + more[..k - |first|];
      PutAllAppend(start, first, more[..k - |first|]);
      assert SameDay(start, PutAll(start, first), Last(days));
      MoreTouches(c, start, PutAll(start, first), rows, Last(days), now, k - |first|);
    }
  }

  lemma MoreTouches(c: Codec, start: Directory, dir: Directory, rows: seq<Row>, day: int, now: int, j: nat)
    requires rows != [] && j < |DayWrites(c, start, rows, day, now)|
    requires day in start.manifests <==> day in dir.manifests
    ensures var more := DayWrites(c, start, rows, day, now);
            DayOfWrite(more[j]) !in PutAll(dir, more[..j]).manifests
  {
    var more := DayWrites(c, start, rows, day, now);
    if j == 0 {
      assert more[..0] == [];
    } else {
      assert more[..1] == [more[0]] && Front([more[0]]) == [];
    }
  }

  lemma {:induction false} AlwaysGood(c: Codec, offset: int, events: seq<Event>)
    ensures Good(c, offset, Steps(c, offset, events))
  {
    if events != [] {
      AlwaysGood(c, offset, Front(events));
      StepGood(c, offset, Steps(c, offset, Front(events)), Last(events));
    }
  }

  // ---------- the theorems ----------

  /** A closed copy never changes again, whatever happens later. */
  lemma {:induction false} ClosedForGood(c: Codec, offset: int, events: seq<Event>, k: nat)
    requires k <= |events|
    ensures Kept(Steps(c, offset, events[..k]).dir, Steps(c, offset, events).dir)
    ensures forall d :: d in Steps(c, offset, events[..k]).dir.manifests ==> d in Steps(c, offset, events[..k]).dir.data
  {
    hide Copied, Kept;
    AlwaysGood(c, offset, events[..k]);
    DataThere(c, offset, Steps(c, offset, events[..k]));
    if k == |events| {
      assert events[..k] == events;
      KeptSelf(Steps(c, offset, events).dir);
    } else {
      assert Front(events)[..k] == events[..k];
      ClosedForGood(c, offset, Front(events), k);
      AlwaysGood(c, offset, Front(events));
      StepGood(c, offset, Steps(c, offset, Front(events)), Last(events));
      KeptThrough(Steps(c, offset, events[..k]).dir, Steps(c, offset, Front(events)).dir, Steps(c, offset, events).dir);
    }
  }

  lemma DataThere(c: Codec, offset: int, s: State)
    requires Good(c, offset, s)
    ensures forall d :: d in s.dir.manifests ==> d in s.dir.data
  {
    hide CopyOf, ManifestFor;
    forall d | d in s.dir.manifests ensures d in s.dir.data { assert Copied(c, offset, s.ledger, s.dir, d); }
  }

  lemma KeptSelf(dir: Directory)
    ensures Kept(dir, dir)
  {
  }

  lemma KeptThrough(a: Directory, b: Directory, d: Directory)
    requires Kept(a, b) && Kept(b, d)
    ensures Kept(a, d)
  {
  }

  lemma NumberedIncreasing(ledger: seq<Row>)
    requires Numbered(ledger)
    ensures Increasing(ledger)
  {
  }

  lemma CopyHas(ledger: seq<Row>, m: Manifest, offset: int, r: Row)
    requires Numbered(ledger) && m.lastSeq <= |ledger|
    ensures r in CopyOf(ledger, m, offset)
        <==> r in ledger && DayOfRow(r, offset) == Some(m.day) && r.number <= m.lastSeq
  {
    var cut := ledger[..m.lastSeq];
    RowsOnHas(cut, m.day, offset, r);
    assert r in cut <==> r in ledger && r.number <= m.lastSeq by {
      if r in ledger && r.number <= m.lastSeq {
        var i :| 0 <= i < |ledger| && ledger[i] == r;
        assert cut[i] == r;
      }
    }
  }

  /** At every moment, every manifest's data verifies, and reads back as exactly that day's rows up to
      `lastSeq`, in order. */
  lemma EveryCopyHolds(c: Codec, offset: int, events: seq<Event>, day: int)
    requires Faithful(c)
    requires day in Steps(c, offset, events).dir.manifests
    ensures var s := Steps(c, offset, events);
            var m := s.dir.manifests[day];
            var checked := Verify(c, s.dir, day);
            && checked.Ok? && checked.value != [] && Increasing(checked.value)
            && m.day == day && m.rows == |checked.value|
            && m.firstSeq == checked.value[0].number && m.lastSeq == Last(checked.value).number
            && forall r ::
                 r in checked.value <==> r in s.ledger && DayOfRow(r, offset) == Some(day) && r.number <= m.lastSeq
  {
    hide RowsOn;
    AlwaysGood(c, offset, events);
    var s := Steps(c, offset, events);
    CopyVerifies(c, offset, s, day);
    forall r ensures r in CopyOf(s.ledger, s.dir.manifests[day], offset)
                <==> r in s.ledger && DayOfRow(r, offset) == Some(day) && r.number <= s.dir.manifests[day].lastSeq
    {
      CopyHas(s.ledger, s.dir.manifests[day], offset, r);
    }
  }

  lemma CopyVerifies(c: Codec, offset: int, s: State, day: int)
    requires Faithful(c) && Good(c, offset, s) && day in s.dir.manifests
    ensures var m := s.dir.manifests[day];
            && m.lastSeq <= |s.ledger| && m.day == day
            && Verify(c, s.dir, day) == Ok(CopyOf(s.ledger, m, offset))
            && CopyOf(s.ledger, m, offset) != [] && Increasing(CopyOf(s.ledger, m, offset))
            && m == ManifestFor(c, day, CopyOf(s.ledger, m, offset), m.createdAt)
  {
    assert Copied(c, offset, s.ledger, s.dir, day);
    hide RowsOn;
    var m := s.dir.manifests[day];
    NumberedIncreasing(s.ledger);
    RowsOnOrder(s.ledger[..m.lastSeq], m.day, offset);
  }

  // ---------- late rows ----------

  ghost predicate Reported(late: seq<Late>, day: int, row: Row)
  {
    exists k :: 0 <= k < |late| && late[k].day == day && row in late[k].rows
  }

  lemma {:induction false} ExtraHas(rows: seq<Row>, lastSeq: nat, r: Row)
    ensures r in Extra(rows, lastSeq) <==> r in rows && r.number > lastSeq
  {
    if rows != [] {
      ExtraHas(Front(rows), lastSeq, r);
      assert rows == Front(rows) + [Last(rows)];
    }
  }

  lemma ReportedAppend(a: seq<Late>, b: seq<Late>, day: int, row: Row)
    ensures Reported(a + b, day, row) <==> Reported(a, day, row) || Reported(b, day, row)
  {
    if Reported(a, day, row) {
      var k :| 0 <= k < |a| && a[k].day == day && row in a[k].rows;
      assert (a + b)[k] == a[k];
    }
    if Reported(b, day, row) {
      var k :| 0 <= k < |b| && b[k].day == day && row in b[k].rows;
      assert (a + b)[|a| + k] == b[k];
    }
  }

  lemma DayReported(dir: Directory, rows: seq<Row>, d: int, day: int, row: Row)
    ensures Reported(DayLate(dir, rows, d), day, row)
       <==> d == day && d in dir.manifests && row in rows && row.number > dir.manifests[d].lastSeq
  {
    if d in dir.manifests {
      ExtraHas(rows, dir.manifests[d].lastSeq, row);
      var late := DayLate(dir, rows, d);
      if late != [] { assert late[0] == Late(d, Extra(rows, dir.manifests[d].lastSeq)); }
    }
  }

  lemma {:induction false} LateHas(dir: Directory, events: seq<Row>, days: seq<int>, offset: int, day: int, row: Row)
    ensures Reported(LateRows(dir, events, days, offset), day, row)
       <==> day in days && day in dir.manifests && row in events && DayOfRow(row, offset) == Some(day)
            && row.number > dir.manifests[day].lastSeq
  {
    if days != [] {
      LateHas(dir, events, Front(days), offset, day, row);
      var rows := RowsOn(events, Last(days), offset);
      ReportedAppend(LateRows(dir, events, Front(days), offset), DayLate(dir, rows, Last(days)), day, row);
      DayReported(dir, rows, Last(days), day, row);
      RowsOnHas(events, Last(days), offset, row);
      assert days == Front(days) + [Last(days)];
    }
  }

  /** A run reports as late exactly the rows that are missing from the copies that were closed when it
      started, for days before its own today. */
  lemma LateExactly(c: Codec, offset: int, events: seq<Event>, now: int, day: int, row: Row)
    requires Faithful(c)
    ensures var s := Steps(c, offset, events);
            Reported(RunLate(offset, Run(s.ledger, s.dir, now, 0)), day, row) <==>
            (&& row in s.ledger && DayOfRow(row, offset) == Some(day) && day < DayOf(now, offset)
             && day in s.dir.manifests && Verify(c, s.dir, day).Ok? && row !in Verify(c, s.dir, day).value)
  {
    hide LateRows, Verify, CopyOf;
    var s := Steps(c, offset, events);
    AlwaysGood(c, offset, events);
    var days := RunDays(s.ledger, now, offset);
    LateHas(s.dir, s.ledger, days, offset, day, row);
    if row in s.ledger && DayOfRow(row, offset) == Some(day) && day < DayOf(now, offset) {
      assert IsClosed(row, DayOf(now, offset), offset);
    }
    if day in s.dir.manifests {
      CopyVerifies(c, offset, s, day);
      CopyHas(s.ledger, s.dir.manifests[day], offset, row);
    }
  }

  // ---------- nothing falls between copy and report ----------

  lemma {:induction false} WrittenManifest(c: Codec, dir: Directory, events: seq<Row>, days: seq<int>, offset: int,
      now: int, m: Manifest)
    requires HaveRows(events, days, offset)
    requires PutManifest(m) in Writes(c, dir, events, days, offset, now)
    ensures m.day in days && RowsOn(events, m.day, offset) != []
        && m == ManifestFor(c, m.day, RowsOn(events, m.day, offset), now)
  {
    hide RowsOn;
    if PutManifest(m) in Writes(c, dir, events, Front(days), offset, now) {
      WrittenManifest(c, dir, events, Front(days), offset, now, m);
    } else {
      assert PutManifest(m) in DayWrites(c, dir, RowsOn(events, Last(days), offset), Last(days), now);
    }
  }

  lemma {:induction false} NewManifest(dir: Directory, writes: seq<Write>, day: int)
    requires day in PutAll(dir, writes).manifests && day !in dir.manifests
    ensures PutManifest(PutAll(dir, writes).manifests[day]) in writes && PutAll(dir, writes).manifests[day].day == day
  {
    if Last(writes) != PutManifest(PutAll(dir, writes).manifests[day])
        || PutAll(dir, writes).manifests[day].day != day {
      NewManifest(dir, Front(writes), day);
    }
  }

  lemma {:induction false} LastIsLast(rows: seq<Row>, day: int, offset: int, row: Row)
    requires Increasing(rows) && row in RowsOn(rows, day, offset)
    ensures RowsOn(rows, day, offset) != [] && row.number <= Last(RowsOn(rows, day, offset)).number
  {
    RowsOnOrder(rows, day, offset);
  }

  /** Once a run has finished, every row it was given for a day before its today is in that day's
      closed copy or in the run's report of late rows. */
  lemma EveryRowAccountedFor(c: Codec, offset: int, events: seq<Event>, row: Row)
    requires Faithful(c)
    requires var s := Steps(c, offset, events);
             s.run.Some? && Finished(c, offset, s.run.value) && row in s.run.value.events
                 && IsClosed(row, DayOf(s.run.value.now, offset), offset)
    ensures var s := Steps(c, offset, events);
            var day := DayOfRow(row, offset).value;
            && day in s.dir.manifests
            && Verify(c, s.dir, day).Ok?
            && (row in Verify(c, s.dir, day).value || Reported(RunLate(offset, s.run.value), day, row))
  {
    hide LateRows, Verify, CopyOf, RowsOn, Committed, ManifestFor;
    var s := Steps(c, offset, events);
    AlwaysGood(c, offset, events);
    var r := s.run.value;
    var day := DayOfRow(row, offset).value;
    var days := RunDays(r.events, r.now, offset);
    RunSoFar(c, offset, s);
    assert day in days;
    CopyVerifies(c, offset, s, day);
    CopyHas(s.ledger, s.dir.manifests[day], offset, row);
    LateHas(r.start, r.events, days, offset, day, row);
    if row.number > s.dir.manifests[day].lastSeq {
      if day in r.start.manifests {
        StartKept(c, offset, s, day);
      } else {
        FreshCopy(c, offset, s, day, row);
      }
    }
  }

  lemma StartKept(c: Codec, offset: int, s: State, day: int)
    requires Good(c, offset, s) && s.run.Some? && day in s.run.value.start.manifests
    ensures day in s.dir.manifests && s.dir.manifests[day] == s.run.value.start.manifests[day]
  {
    hide CopyOf, ManifestFor;
    RunSoFar(c, offset, s);
    assert Copied(c, offset, s.ledger, s.run.value.start, day);
  }

  lemma FreshCopy(c: Codec, offset: int, s: State, day: int, row: Row)
    requires Good(c, offset, s) && s.run.Some? && day in s.dir.manifests && day !in s.run.value.start.manifests
    requires row in s.run.value.events && DayOfRow(row, offset) == Some(day)
    ensures row.number <= s.dir.manifests[day].lastSeq
  {
    hide Writes, RowsOn, RunDays, Committed;
    var r := s.run.value;
    var writes := RunWrites(c, offset, r);
    NewManifest(r.start, writes[..r.done], day);
    assert PutManifest(s.dir.manifests[day]) in writes;
    WrittenManifest(c, r.start, r.events, RunDays(r.events, r.now, offset), offset, r.now, s.dir.manifests[day]);
    NumberedIncreasing(s.ledger);
    RowsOnHas(r.events, day, offset, row);
    LastIsLast(r.events, day, offset, row);
  }

  // ---------- reading back ----------

  predicate InCopy(manifests: map<int, Manifest>, offset: int, r: Row)
  {
    var day := DayOfRow(r, offset);
    day.Some? && day.value in manifests && r.number <= manifests[day.value].lastSeq
  }

  /** The archived part of the ledger, in the ledger's order. */
  function ArchivedRows(ledger: seq<Row>, manifests: map<int, Manifest>, offset: int): seq<Row>
  {
    if ledger == [] then []
    else
      ArchivedRows(Front(ledger), manifests, offset)
      + (if InCopy(manifests, offset, Last(ledger)) then [Last(ledger)] else [])
  }

  lemma {:induction false} ArchivedHas(ledger: seq<Row>, manifests: map<int, Manifest>, offset: int, r: Row)
    ensures r in ArchivedRows(ledger, manifests, offset) <==> r in ledger && InCopy(manifests, offset, r)
  {
    if ledger != [] {
      ArchivedHas(Front(ledger), manifests, offset, r);
      assert ledger == Front(ledger) + [Last(ledger)];
    }
  }

  lemma {:induction false} ArchivedOrder(ledger: seq<Row>, manifests: map<int, Manifest>, offset: int)
    requires Increasing(ledger)
    ensures Increasing(ArchivedRows(ledger, manifests, offset))
  {
    if ledger != [] {
      ArchivedOrder(Front(ledger), manifests, offset);
      var before := ArchivedRows(Front(ledger), manifests, offset);
      forall i | 0 <= i < |before| ensures before[i].number < Last(ledger).number {
        ArchivedHas(Front(ledger), manifests, offset, before[i]);
      }
    }
  }

  ghost predicate Distinct(rows: seq<Row>)
  {
    forall i, j :: 0 <= i < j < |rows| ==> rows[i].number != rows[j].number
  }

  lemma {:induction false} InsertKeeps(r: Row, rows: seq<Row>)
    requires Increasing(rows) && forall i :: 0 <= i < |rows| ==> rows[i].number != r.number
    ensures Increasing(Insert(r, rows))
    ensures forall x :: x in Insert(r, rows) <==> x == r || x in rows
  {
    if rows != [] && r.number > rows[0].number {
      InsertKeeps(r, rows[1..]);
      var rest := Insert(r, rows[1..]);
      assert rows == [rows[0]] + rows[1..];
      assert forall x :: x in rest ==> rows[0].number < x.number;
      assert forall i :: 0 <= i < |rest| ==> rest[i] in rest;
    }
  }

  lemma {:induction false} SortKeeps(rows: seq<Row>)
    requires Distinct(rows)
    ensures Increasing(SortRows(rows))
    ensures forall x :: x in SortRows(rows) <==> x in rows
  {
    if rows != [] {
      SortKeeps(rows[1..]);
      var rest := SortRows(rows[1..]);
      forall i | 0 <= i < |rest| ensures rest[i].number != rows[0].number { assert rest[i] in rows[1..]; }
      InsertKeeps(rows[0], rest);
      assert rows == [rows[0]] + rows[1..];
    }
  }

  lemma {:induction false} IncreasingUnique(a: seq<Row>, b: seq<Row>)
    requires Increasing(a) && Increasing(b) && forall r :: r in a <==> r in b
    ensures a == b
  {
    FirstIn(a);
    FirstIn(b);
    if a != [] {
      assert forall r :: r in a[1..] <==> r in a && r != a[0];
      assert forall r :: r in b[1..] <==> r in b && r != b[0];
      IncreasingUnique(a[1..], b[1..]);
      assert a == [a[0]] + a[1..] && b == [b[0]] + b[1..];
    }
  }

  lemma {:induction false} CopiesHold(c: Codec, offset: int, s: State, days: seq<int>)
    requires Faithful(c) && Good(c, offset, s) && Ascending(days)
    requires forall d :: d in days ==> d in s.dir.manifests
    ensures var copies := Copies(c, s.dir, days);
            && copies.Ok? && Distinct(copies.value)
            && forall r ::
                 r in copies.value
                 <==> r in s.ledger && InCopy(s.dir.manifests, offset, r) && DayOfRow(r, offset).value in days
  {
    hide RowsOn, Verify, Committed, RunOk;
    if days != [] {
      CopiesHold(c, offset, s, Front(days));
      var day := Last(days);
      CopyVerifies(c, offset, s, day);
      var m := s.dir.manifests[day];
      var before, copy := Copies(c, s.dir, Front(days)).value, CopyOf(s.ledger, m, offset);
      assert days == Front(days) + [day];
      forall r ensures r in copy <==> r in s.ledger && DayOfRow(r, offset) == Some(day) && r.number <= m.lastSeq {
        CopyHas(s.ledger, m, offset, r);
      }
      TwoCopiesDistinct(s.ledger, before, copy, day, offset);
    }
  }

  lemma TwoCopiesDistinct(ledger: seq<Row>, before: seq<Row>, copy: seq<Row>, day: int, offset: int)
    requires Numbered(ledger) && Distinct(before) && Increasing(copy)
    requires forall r :: r in before ==> r in ledger && DayOfRow(r, offset) != Some(day)
    requires forall r :: r in copy ==> r in ledger && DayOfRow(r, offset) == Some(day)
    ensures Distinct(before + copy)
  {
    forall i, j | 0 <= i < |before| && 0 <= j < |copy| ensures before[i].number != copy[j].number {
      assert before[i] in before && copy[j] in copy;
    }
  }

  /** `readArchivedRows` gives back the archived part of the ledger, every row of it once and in
      order, at every moment of every run. */
  lemma ReadBack(c: Codec, offset: int, events: seq<Event>)
    requires Faithful(c)
    ensures var s := Steps(c, offset, events);
            ReadArchived(c, s.dir) == Ok(ArchivedRows(s.ledger, s.dir.manifests, offset))
  {
    hide Copies;
    AlwaysGood(c, offset, events);
    var s := Steps(c, offset, events);
    var days := SortedKeys(s.dir.manifests);
    CopiesHold(c, offset, s, days);
    var copies := Copies(c, s.dir, days).value;
    SortKeeps(copies);
    NumberedIncreasing(s.ledger);
    ArchivedOrder(s.ledger, s.dir.manifests, offset);
    forall r ensures r in SortRows(copies) <==> r in ArchivedRows(s.ledger, s.dir.manifests, offset) {
      ArchivedHas(s.ledger, s.dir.manifests, offset, r);
    }
    IncreasingUnique(SortRows(copies), ArchivedRows(s.ledger, s.dir.manifests, offset));
  }

  // ---------- a copy that is not the one that was written ----------

  /** The data file of a day holds other bytes, or is gone. The manifest is what the run wrote. */
  function Replaced(dir: Directory, day: int, bytes: Option<string>): Directory
  {
    dir.(data := if bytes.Some? then dir.data[day := bytes.value] else dir.data - {day})
  }

  /** Bytes that nothing which was written down tells from the packed rows of a copy: both digests, the number
      of rows and their order are the same. */
  ghost predicate Passes(c: Codec, bytes: string, rows: seq<Row>)
  {
    && c.sha(bytes) == c.sha(c.zip(c.toText(rows)))
    && c.unzip(bytes).Some? && c.sha(c.unzip(bytes).value) == c.sha(c.toText(rows))
    && var found := c.fromText(c.unzip(bytes).value);
    found.Some? && |found.value| == |rows| && Increasing(found.value)
  }

  lemma ReplacedDay(c: Codec, offset: int, s: State, day: int, bytes: Option<string>)
    requires Faithful(c) && Good(c, offset, s) && day in s.dir.manifests
    ensures var checked := Verify(c, Replaced(s.dir, day, bytes), day);
            var rows := CopyOf(s.ledger, s.dir.manifests[day], offset);
            && (checked.Ok? <==> bytes.Some? && Passes(c, bytes.value, rows))
            && (checked == Err(Missing) <==> bytes.None?)
            && (checked == Err(GzDigestMismatch) <==> bytes.Some? && c.sha(bytes.value) != c.sha(s.dir.data[day]))
  {
    assert Copied(c, offset, s.ledger, s.dir, day);
    hide CopyOf, Committed, RunOk;
  }

  lemma {:induction false} CopiesWithout(c: Codec, dir: Directory, days: seq<int>, day: int)
    requires day in days && Verify(c, dir, day).Err?
    requires forall d :: d in days && d != day ==> Verify(c, dir, d).Ok?
    ensures Copies(c, dir, days).Err? && Copies(c, dir, days).error == Verify(c, dir, day).error
  {
    hide Verify;
    assert days == Front(days) + [Last(days)];
    if day in Front(days) {
      CopiesWithout(c, dir, Front(days), day);
    } else {
      CopiesAllThere(c, dir, Front(days));
    }
  }

  lemma {:induction false} CopiesAllThere(c: Codec, dir: Directory, days: seq<int>)
    requires forall d :: d in days ==> Verify(c, dir, d).Ok?
    ensures Copies(c, dir, days).Ok?
  {
    hide Verify;
    if days != [] {
      assert days == Front(days) + [Last(days)];
      CopiesAllThere(c, dir, Front(days));
    }
  }

  /** At every moment of every run: put any other bytes in the place of a closed day's data, or none. The day
      verifies if and only if the bytes pass; if their digest is not that of the bytes that were written they
      do not. If the day does not verify, neither does the archive read back, for the same reason; and no
      other day is affected. */
  lemma ReplacedCopyRejected(c: Codec, offset: int, events: seq<Event>, day: int, bytes: Option<string>)
    requires Faithful(c) && day in Steps(c, offset, events).dir.manifests
    ensures var s := Steps(c, offset, events);
            var after := Replaced(s.dir, day, bytes);
            var checked := Verify(c, after, day);
            && Verify(c, s.dir, day).Ok? && day in s.dir.data
            && var rows := Verify(c, s.dir, day).value;
            && (checked.Ok? <==> bytes.Some? && Passes(c, bytes.value, rows))
            && (bytes.None? ==> checked == Err(Missing))
            && (bytes.Some? && c.sha(bytes.value) != c.sha(s.dir.data[day]) ==> checked == Err(GzDigestMismatch))
            && (checked.Err? ==> ReadArchived(c, after) == Err(checked.error))
            && (forall d :: d in s.dir.manifests && d != day ==> Verify(c, after, d) == Verify(c, s.dir, d))
  {
    hide CopyOf, Copies, Passes, SortedKeys;
    AlwaysGood(c, offset, events);
    var s := Steps(c, offset, events);
    var after := Replaced(s.dir, day, bytes);
    assert forall d :: d in s.dir.manifests && d != day ==> Verify(c, after, d) == Verify(c, s.dir, d);
    assert Copied(c, offset, s.ledger, s.dir, day) by { assert Committed(c, offset, s.ledger, s.dir); }
    hide Verify, Replaced;
    CopyVerifies(c, offset, s, day);
    ReplacedDay(c, offset, s, day, bytes);
    forall d | d in s.dir.manifests ensures Verify(c, s.dir, d).Ok? { CopyVerifies(c, offset, s, d); }
    if Verify(c, after, day).Err? { CopiesWithout(c, after, SortedKeys(after.manifests), day); }
  }
}
