/** What each answer of the setup planner (src/setup.mjs) says of the document, on its lines alone: which are
    in a fenced block, which carry marker text, where a section starts and ends. */
module SetupPlan {
  import opened Sequences
  import opened JsText
  import opened SetupRule

  // ---------- the document ----------

  /** Line `k` is in no fenced code block. */
  predicate Live(lines: seq<string>, k: nat)
  {
    k < |lines| && !Fenced(lines, 0, k)
  }

  predicate Marked(lines: seq<string>, k: nat)
  {
    k < |lines| && Mention(lines[k])
  }

  predicate HeadingAt(lines: seq<string>, k: nat)
  {
    Live(lines, k) && IsHeading(lines[k])
  }

  predicate SectionAt(lines: seq<string>, k: nat)
  {
    Live(lines, k) && IsSection(lines[k])
  }

  /** The two marker lines, in this order, outside fences, and no marker text anywhere else. */
  ghost predicate CleanPair(lines: seq<string>, b: nat, e: nat)
  {
    && b < e < |lines| && Live(lines, b) && Live(lines, e) && lines[b] == RULE_BEGIN && lines[e] == RULE_END
    && forall k: nat :: Marked(lines, k) ==> k == b || k == e
  }

  ghost predicate OnlyHeading(lines: seq<string>, h: nat)
  {
    HeadingAt(lines, h) && forall k: nat :: HeadingAt(lines, k) ==> k == h
  }

  /** The section under the heading at `h` ends at the next heading of level one or two, or with the document. */
  ghost predicate Section(lines: seq<string>, h: nat, e: nat)
  {
    && h < e <= |lines| && (e < |lines| ==> SectionAt(lines, e))
    && forall k: nat :: h < k < e ==> !SectionAt(lines, k)
  }

  predicate Shipped(lines: seq<string>, h: nat, e: nat, rule: string, earlier: seq<string>)
    requires h <= e <= |lines|
  {
    Trim(Join(lines[h..e], '\n')) in [rule] + earlier
  }

  // ---------- what the filters of the planner find ----------

  lemma RowAt(lines: seq<string>, k: nat)
    requires k < |lines|
    ensures var row := Rows(None, lines, 0)[k];
            row.line == lines[k] && row.index == k && (row.live <==> Live(lines, k))
  {
    hide Rows, FenceAfter, Fenced;
    NoLines();
    assert lines[..0] == [];
    LiveOutsideFences(lines, 0);
    RowPlaces(None, lines, 0, k);
  }

  lemma {:induction false} RowPlaces(open: Option<Fence>, lines: seq<string>, first: nat, k: nat)
    requires k < |lines|
    ensures Rows(open, lines, first)[k].line == lines[k] && Rows(open, lines, first)[k].index == first + k
    decreases lines
  {
    hide StepFence, OpenerOf;
    if k > 0 { RowPlaces(StepFence(open, lines[0]), lines[1..], first + 1, k - 1); }
  }

  /** The rows a filter keeps are those it should, in the order of their lines. */
  ghost predicate Rising(rows: seq<Row>)
  {
    forall i, j :: 0 <= i < j < |rows| ==> rows[i].index < rows[j].index
  }

  lemma {:induction false} FilterRises(rows: seq<Row>, p: Row -> bool)
    requires Rising(rows)
    ensures Rising(Filter(rows, p))
  {
    if rows != [] {
      var rest := Filter(rows[1..], p);
      FilterRises(rows[1..], p);
      forall k | 0 <= k < |rest| ensures rows[0].index < rest[k].index { FilterIn(rows[1..], p, rest[k]); }
    }
  }

  ghost predicate Keeps(lines: seq<string>, p: Row -> bool, k: nat)
  {
    k < |lines| && p(Rows(None, lines, 0)[k])
  }

  /** How many a filter keeps, and which. */
  lemma FilterCounts(lines: seq<string>, p: Row -> bool)
    ensures var rows, kept := Rows(None, lines, 0), Filter(Rows(None, lines, 0), p);
            && (forall r :: r in kept ==> Keeps(lines, p, r.index) && r == rows[r.index])
            && (forall k: nat :: Keeps(lines, p, k) ==> rows[k] in kept && rows[k].index == k)
            && Rising(kept)
  {
    hide Filter, Rows;
    var rows := Rows(None, lines, 0);
    forall k | 0 <= k < |lines| ensures rows[k].index == k { RowAt(lines, k); }
    FilterRises(rows, p);
    forall r ensures r in Filter(rows, p) <==> r in rows && p(r) { FilterIn(rows, p, r); }
  }

  lemma {:induction false} RisingUnique(a: seq<Row>, b: seq<Row>)
    requires Rising(a) && Rising(b) && forall r :: r in a <==> r in b
    ensures a == b
  {
    FirstIn(a);
    FirstIn(b);
    if a != [] {
      assert forall r :: r in a[1..] <==> r in a && r != a[0];
      assert forall r :: r in b[1..] <==> r in b && r != b[0];
      RisingUnique(a[1..], b[1..]);
      assert a == [a[0]] + a[1..] && b == [b[0]] + b[1..];
    }
  }

  // ---------- a document with marker text ----------

  lemma NoMarks(lines: seq<string>)
    ensures Filter(Rows(None, lines, 0), Mentioning) == [] <==> forall k: nat :: !Marked(lines, k)
  {
    hide Rows, Filter, Mention;
    QuietRows(None, lines, 0);
    if Quiet(lines) {
      assert forall k: nat :: !Marked(lines, k);
    } else {
      var k :| 0 <= k < |lines| && Mention(lines[k]);
      assert Marked(lines, k);
    }
  }

  lemma AllRows(lines: seq<string>)
    ensures forall k :: 0 <= k < |lines| ==>
              var row := Rows(None, lines, 0)[k];
              row.line == lines[k] && row.index == k && (row.live <==> Live(lines, k))
  {
    hide Rows, Live;
    forall k | 0 <= k < |lines|
      ensures var row := Rows(None, lines, 0)[k];
              row.line == lines[k] && row.index == k && (row.live <==> Live(lines, k))
    {
      RowAt(lines, k);
    }
  }

  lemma PairFiltered(lines: seq<string>, b: nat, e: nat)
    requires CleanPair(lines, b, e)
    ensures var rows := Rows(None, lines, 0);
            && Filter(rows, LiveBegin) == [rows[b]] && Filter(rows, LiveEnd) == [rows[e]]
            && Filter(rows, Mentioning) == [rows[b], rows[e]] && rows[b].index == b && rows[e].index == e
  {
    hide Rows, Filter, Mention, Fenced;
    var rows := Rows(None, lines, 0);
    Markers();
    AllRows(lines);
    FilterCounts(lines, LiveBegin);
    FilterCounts(lines, LiveEnd);
    FilterCounts(lines, Mentioning);
    forall k: nat | k < |lines| && Mention(lines[k]) ensures k == b || k == e { assert Marked(lines, k); }
    assert Keeps(lines, LiveBegin, b) && Keeps(lines, LiveEnd, e);
    assert Keeps(lines, Mentioning, b) && Keeps(lines, Mentioning, e);
    RisingUnique(Filter(rows, LiveBegin), [rows[b]]);
    RisingUnique(Filter(rows, LiveEnd), [rows[e]]);
    RisingUnique(Filter(rows, Mentioning), [rows[b], rows[e]]);
  }

  /** The other way round: the pair that the planner has found is a clean one. */
  lemma FilteredPair(lines: seq<string>) returns (b: nat, e: nat)
    requires var rows := Rows(None, lines, 0);
             && |Filter(rows, LiveBegin)| == 1 && |Filter(rows, LiveEnd)| == 1 && |Filter(rows, Mentioning)| == 2
             && Filter(rows, LiveBegin)[0].index <= Filter(rows, LiveEnd)[0].index
    ensures CleanPair(lines, b, e)
  {
    hide Rows, Filter, Mention, Fenced;
    var rows := Rows(None, lines, 0);
    Markers();
    AllRows(lines);
    FilterCounts(lines, LiveBegin);
    FilterCounts(lines, LiveEnd);
    FilterCounts(lines, Mentioning);
    var x, y := Filter(rows, LiveBegin)[0], Filter(rows, LiveEnd)[0];
    b, e := x.index, y.index;
    assert x in Filter(rows, LiveBegin) && y in Filter(rows, LiveEnd);
    assert Keeps(lines, LiveBegin, b) && Keeps(lines, LiveEnd, e);
    assert Keeps(lines, Mentioning, b) && Keeps(lines, Mentioning, e);
    var both := Filter(rows, Mentioning);
    assert rows[b] in both && rows[e] in both;
    forall k: nat | Marked(lines, k) ensures k == b || k == e {
      assert Keeps(lines, Mentioning, k);
      assert rows[k] in both;
    }
  }

  /** The answers for a document with marker text. */
  lemma ManagedSays(text: string, rule: string)
    ensures var lines := Lines(text);
            var plan := PlanManaged(text, Rows(None, lines, 0), rule);
            && (Accepted(plan) <==> exists b: nat, e: nat :: CleanPair(lines, b, e))
            && (Accepted(plan) ==> plan.Unchanged? || plan.Update?)
            && (!Accepted(plan) ==> plan == Conflict(MarkersNotOnePair))
            && forall b: nat, e: nat :: CleanPair(lines, b, e) ==>
                 && (plan.Unchanged? <==> lines[b + 1..e] == Lines(rule))
                 && (plan.Update? ==> Lines(plan.text) == lines[..b] + Lines(Block(rule)) + lines[e + 1..])
  {
    hide Rows, Filter, Lines, Join, Block, Fenced, Mention, Live;
    var lines := Lines(text);
    var rows := Rows(None, lines, 0);
    var plan := PlanManaged(text, rows, rule);
    if Accepted(plan) { var b, e := FilteredPair(lines); }
    forall b: nat, e: nat | CleanPair(lines, b, e)
      ensures Accepted(plan)
      ensures plan.Unchanged? <==> lines[b + 1..e] == Lines(rule)
      ensures plan.Update? ==> Lines(plan.text) == lines[..b] + Lines(Block(rule)) + lines[e + 1..]
    {
      PairFiltered(lines, b, e);
      ReplacedPair(text, rule, b, e);
    }
  }

  lemma ReplacedPair(text: string, rule: string, b: nat, e: nat)
    requires b < e < |Lines(text)| && Lines(text)[b] == RULE_BEGIN && Lines(text)[e] == RULE_END
    ensures var lines := Lines(text);
            var after := lines[..b] + Lines(Block(rule)) + lines[e + 1..];
            Lines(Join(after, '\n')) == after && (Join(after, '\n') == text <==> lines[b + 1..e] == Lines(rule))
  {
    hide Lines, Join, Block;
    var lines := Lines(text);
    LinesPlain(text);
    WrappedLines(lines[..b], rule, lines[e + 1..]);
    BlockLines(rule);
    JoinSplitLines(text);
    SamePair(lines, b, e, Lines(rule));
  }

  lemma SamePair(lines: seq<string>, b: nat, e: nat, inner: seq<string>)
    requires b < e < |lines|
    ensures lines[..b] + ([lines[b]] + inner + [lines[e]]) + lines[e + 1..] == lines <==> lines[b + 1..e] == inner
  {
    var block := [lines[b]] + inner + [lines[e]];
    var after := lines[..b] + block + lines[e + 1..];
    assert after[b..b + |block|] == block && block[1..|block| - 1] == inner;
    if after == lines {
      assert |block| == e + 1 - b;
      assert lines[b..e + 1] == block && lines[b + 1..e] == lines[b..e + 1][1..e - b];
    }
    if lines[b + 1..e] == inner {
      assert lines == lines[..b] + ([lines[b]] + lines[b + 1..e] + [lines[e]]) + lines[e + 1..];
    }
  }

  lemma JoinSplitLines(text: string)
    ensures Join(Lines(text), '\n') == text
  {
    JoinSplit(text, '\n');
  }

  // ---------- a document with a heading ----------

  lemma HeadingsFiltered(lines: seq<string>)
    ensures var rows, found := Rows(None, lines, 0), Filter(Rows(None, lines, 0), LiveHeading);
            && (|found| == 0 <==> forall k: nat :: !HeadingAt(lines, k))
            && (|found| == 1 <==> exists h: nat :: OnlyHeading(lines, h))
            && (|found| > 1 <==> exists i: nat, j: nat :: i < j && HeadingAt(lines, i) && HeadingAt(lines, j))
            && (forall h: nat :: OnlyHeading(lines, h) ==> found == [rows[h]] && rows[h].index == h)
  {
    hide Rows, Filter, IsHeading, Fenced;
    var rows, found := Rows(None, lines, 0), Filter(Rows(None, lines, 0), LiveHeading);
    AllRows(lines);
    FilterCounts(lines, LiveHeading);
    forall k: nat ensures HeadingAt(lines, k) <==> Keeps(lines, LiveHeading, k) {}
    forall k | 0 <= k < |found| ensures HeadingAt(lines, found[k].index) && found[k] == rows[found[k].index] {
      assert found[k] in found;
    }
    forall h: nat | OnlyHeading(lines, h) ensures found == [rows[h]] && rows[h].index == h {
      RisingUnique(found, [rows[h]]);
    }
    if |found| > 1 { assert found[0].index < found[1].index; }
    if |found| == 1 {
      forall k: nat | HeadingAt(lines, k) ensures k == found[0].index { assert rows[k] in found; }
      assert OnlyHeading(lines, found[0].index);
    }
    if i: nat, j: nat :| i < j && HeadingAt(lines, i) && HeadingAt(lines, j) {
      assert rows[i] in found && rows[j] in found;
    }
    if k: nat :| HeadingAt(lines, k) { assert rows[k] in found; }
  }

  lemma {:induction false} FirstAfterLeast(rows: seq<Row>, start: nat)
    requires Rising(rows)
    ensures var first := FirstAfter(rows, start);
            && (first.Some? ==> first.value in rows && first.value.index > start)
            && (forall r :: r in rows && r.index > start ==> first.Some? && first.value.index <= r.index)
  {
    if rows != [] && rows[0].index <= start {
      FirstAfterLeast(rows[1..], start);
    } else {
      assert forall k :: 0 <= k < |rows| ==> rows[0].index <= rows[k].index;
    }
  }

  lemma SectionEnds(lines: seq<string>, h: nat, e: nat)
    requires h < |lines|
    ensures Section(lines, h, e) <==> e == SectionEnd(Rows(None, lines, 0), h)
  {
    hide Rows, Filter, IsSection, Fenced;
    var rows, found := Rows(None, lines, 0), Filter(Rows(None, lines, 0), LiveSection);
    AllRows(lines);
    FilterCounts(lines, LiveSection);
    FirstAfterLeast(found, h);
    forall k: nat ensures SectionAt(lines, k) <==> Keeps(lines, LiveSection, k) {}
    var stop := SectionEnd(rows, h);
    assert Section(lines, h, stop);
    if Section(lines, h, e) { SectionUnique(lines, h, e, stop); }
  }

  lemma SectionUnique(lines: seq<string>, h: nat, a: nat, b: nat)
    requires Section(lines, h, a) && Section(lines, h, b)
    ensures a == b
  {
    hide SectionAt;
  }

  /** The answers for a document without marker text that has one heading. */
  lemma UnmarkedSays(text: string, rule: string, earlier: seq<string>, h: nat, e: nat)
    requires OnlyHeading(Lines(text), h) && Section(Lines(text), h, e)
    requires |Filter(Rows(None, Lines(text), 0), LiveHeading)| == 1
    ensures var lines := Lines(text);
            var plan := PlanUnmarked(text, Rows(None, lines, 0), rule, earlier);
            && (plan.Convert? <==> Shipped(lines, h, e, rule, earlier))
            && (!plan.Convert? ==> plan == Conflict(SectionNotShipped))
            && (plan.Convert? ==>
                  Lines(plan.text)
                  == lines[..h] + Lines(Block(rule)) + (Blanks(TrailingBlanks(lines[h..e])) + lines[e..]))
  {
    hide Rows, Filter, Lines, Join, Block, Trim, TrailingBlanks, SectionEnd, OnlyHeading;
    var lines := Lines(text);
    HeadingsFiltered(lines);
    SectionEnds(lines, h, e);
    var post := Blanks(TrailingBlanks(lines[h..e])) + lines[e..];
    assert From(Before(lines, e), h) == lines[h..e];
    LinesPlain(text);
    assert Plain(post);
    WrappedLines(lines[..h], rule, post);
    assert lines[..h] + Lines(Block(rule)) + Blanks(TrailingBlanks(lines[h..e])) + lines[e..]
        == lines[..h] + Lines(Block(rule)) + post;
  }

  // ---------- every document ----------

  /** A line put at the end of the text, white space at its end aside, would be in a fenced block. */
  predicate EndsInFence(text: string)
  {
    var kept := Lines(TrimEnd(text)) + ["", "probe"];
    !Live(kept, |kept| - 1)
  }

  lemma AppendSays(text: string, rule: string)
    ensures var plan := PlanAppend(text, rule);
            && (plan.Append? <==> !EndsInFence(text))
            && (!plan.Append? ==> plan == Conflict(FenceLeftOpen))
            && (plan.Append? ==> plan.text == TrimEnd(text) + "\n\n" + Block(rule) + "\n")
  {
    hide Rows, Lines, TrimEnd, Fenced, Block;
    var trimmed := TrimEnd(text);
    ProbeLines(trimmed);
    var kept := Lines(trimmed) + ["", "probe"];
    RowAt(kept, |kept| - 1);
  }

  lemma ProbeLines(trimmed: string)
    ensures Lines(trimmed + "\n\nprobe") == Lines(trimmed) + ["", "probe"]
  {
    hide Split;
    BetweenTexts(trimmed, "probe");
    SplitPiece("probe", '\n');
    assert trimmed + "\n\nprobe" == trimmed + "\n\n" + "probe";
    assert Lines(trimmed) + [""] + ["probe"] == Lines(trimmed) + ["", "probe"];
  }

  lemma BlankIff(text: string)
    ensures Trim(text) == "" <==> forall k :: 0 <= k < |text| ==> IsSpace(text[k])
  {
    if Trim(text) == "" { TrimBlank(text); }
    if forall k :: 0 <= k < |text| ==> IsSpace(text[k]) { AllSpaceTrims(text); }
  }

  lemma PairsAreMarked(lines: seq<string>, b: nat, e: nat)
    requires CleanPair(lines, b, e)
    ensures Marked(lines, b) && Marked(lines, e)
  {
    hide Live, Mention;
    Markers();
  }

  lemma OnePair(lines: seq<string>, b: nat, e: nat, c: nat, f: nat)
    requires CleanPair(lines, b, e) && CleanPair(lines, c, f)
    ensures b == c && e == f
  {
    hide Live, Mention;
    PairsAreMarked(lines, b, e);
    PairsAreMarked(lines, c, f);
  }

  lemma HeadingInside(lines: seq<string>, h: nat)
    requires OnlyHeading(lines, h)
    ensures h < |lines|
  {
  }

  ghost predicate HasMarks(lines: seq<string>)
  {
    exists k: nat :: Marked(lines, k)
  }

  ghost predicate HasPair(lines: seq<string>)
  {
    exists b: nat, e: nat :: CleanPair(lines, b, e)
  }

  /** The pair encloses exactly the lines of the rule. */
  ghost predicate UpToDate(lines: seq<string>, rule: string)
  {
    exists b: nat, e: nat :: CleanPair(lines, b, e) && lines[b + 1..e] == Lines(rule)
  }

  ghost predicate HasOneHeading(lines: seq<string>)
  {
    exists h: nat :: OnlyHeading(lines, h)
  }

  ghost predicate HasTwoHeadings(lines: seq<string>)
  {
    exists i: nat, j: nat :: i < j && HeadingAt(lines, i) && HeadingAt(lines, j)
  }

  /** The one section is, white space around it aside, a rule that has been shipped. */
  ghost predicate HasShipped(lines: seq<string>, rule: string, earlier: seq<string>)
  {
    exists h: nat, e: nat :: OnlyHeading(lines, h) && Section(lines, h, e) && Shipped(lines, h, e, rule, earlier)
  }

  lemma MarkedPlan(text: string, rule: string)
    ensures var plan, lines := PlanManaged(text, Rows(None, Lines(text), 0), rule), Lines(text);
            if UpToDate(lines, rule) then plan.Unchanged?
            else if HasPair(lines) then plan.Update?
            else plan == Conflict(MarkersNotOnePair)
    ensures HasPair(Lines(text)) ==> HasMarks(Lines(text))
    ensures UpToDate(Lines(text), rule) ==> HasPair(Lines(text))
  {
    hide Rows, Lines, PlanManaged, Marked, CleanPair;
    ManagedSays(text, rule);
    var lines := Lines(text);
    forall b: nat, e: nat | CleanPair(lines, b, e) ensures Marked(lines, b) { PairsAreMarked(lines, b, e); }
  }

  lemma HeadedPlan(text: string, rule: string, earlier: seq<string>)
    requires HasOneHeading(Lines(text)) && |Filter(Rows(None, Lines(text), 0), LiveHeading)| == 1
    ensures var plan, lines := PlanUnmarked(text, Rows(None, Lines(text), 0), rule, earlier), Lines(text);
            if HasShipped(lines, rule, earlier) then plan.Convert?
            else plan == Conflict(SectionNotShipped)
  {
    hide Rows, Filter, Lines, OnlyHeading, PlanUnmarked, SectionEnd;
    var lines := Lines(text);
    forall h: nat, e: nat | OnlyHeading(lines, h) && Section(lines, h, e)
      ensures var plan := PlanUnmarked(text, Rows(None, lines, 0), rule, earlier);
              && (plan.Convert? <==> Shipped(lines, h, e, rule, earlier))
              && (!plan.Convert? ==> plan == Conflict(SectionNotShipped))
    {
      UnmarkedSays(text, rule, earlier, h, e);
    }
    var h :| OnlyHeading(lines, h);
    HeadingInside(lines, h);
    var e := SectionEnd(Rows(None, lines, 0), h);
    SectionEnds(lines, h, e);
  }

  /** What the planner answers, for every document that is not blank, said of its lines. */
  lemma PlanSays(text: string, rule: string, earlier: seq<string>)
    requires exists k :: 0 <= k < |text| && !IsSpace(text[k])
    ensures var plan, lines := PlanRule(Some(text), rule, earlier), Lines(text);
            var marked, one, two := HasMarks(lines), HasOneHeading(lines), HasTwoHeadings(lines);
            && (plan.Unchanged? <==> UpToDate(lines, rule))
            && (plan.Update? <==> HasPair(lines) && !UpToDate(lines, rule))
            && (plan == Conflict(MarkersNotOnePair) <==> marked && !HasPair(lines))
            && (plan == Conflict(SeveralSections) <==> !marked && two)
            && (plan.Convert? <==> !marked && one && HasShipped(lines, rule, earlier))
            && (plan == Conflict(SectionNotShipped)
                <==> !marked && one && !HasShipped(lines, rule, earlier))
            && (plan.Append? <==> !marked && !one && !two && !EndsInFence(text))
            && (plan == Conflict(FenceLeftOpen)
                <==> !marked && !one && !two && EndsInFence(text))
            && !plan.Create?
  {
    hide Rows, Filter, Lines, Trim, PlanManaged, PlanUnmarked, PlanAppend, EndsInFence;
    hide UpToDate, HasPair, HasShipped, OnlyHeading, Marked, HeadingAt;
    var lines := Lines(text);
    BlankIff(text);
    NoMarks(lines);
    MarkedPlan(text, rule);
    HeadingsFiltered(lines);
    AppendSays(text, rule);
    if HasOneHeading(lines) { HeadedPlan(text, rule, earlier); }
  }

  /** A blank document, or none, is created anew. */
  lemma CreateIff(current: Option<string>, rule: string, earlier: seq<string>)
    ensures var plan := PlanRule(current, rule, earlier);
            && (plan.Create?
                <==> current.None? || forall k :: 0 <= k < |current.value| ==> IsSpace(current.value[k]))
            && (plan.Create? ==> plan.text == Block(rule) + "\n")
  {
    hide Trim, Rows, Filter, Lines;
    if current.Some? { BlankIff(current.value); }
  }

  // ---------- the lines themselves ----------

  function Repeat(c: char, n: nat): string
  {
    seq(n, _ => c)
  }

  lemma {:induction false} RunCounts(c: char, n: nat, rest: string)
    requires rest == "" || rest[0] != c
    ensures RunOf(Repeat(c, n) + rest, c) == n
  {
    if n == 0 {
      assert Repeat(c, 0) + rest == rest;
    } else {
      assert (Repeat(c, n) + rest)[0] == c && (Repeat(c, n) + rest)[1..] == Repeat(c, n - 1) + rest;
      RunCounts(c, n - 1, rest);
    }
  }

  /** A line cut into its indentation, a run of fence characters, and what follows the run. */
  predicate FenceShape(line: string, indent: nat, mark: char, n: nat, rest: string)
  {
    && line == Repeat(' ', indent) + (Repeat(mark, n) + rest)
    && indent <= 3 && n >= 3 && (mark == '`' || mark == '~') && (rest == "" || rest[0] != mark)
  }

  lemma FenceCut(line: string) returns (indent: nat)
    ensures FenceOn(line).Some? ==>
              FenceShape(line, indent, FenceOn(line).value.0.mark, FenceOn(line).value.0.length, FenceOn(line).value.1)
  {
    hide Repeat;
    indent := RunOf(line, ' ');
    RunCut(line, ' ');
    if FenceOn(line).Some? { RunCut(line[indent..], line[indent]); }
  }

  lemma RunCut(s: string, c: char)
    ensures s == Repeat(c, RunOf(s, c)) + s[RunOf(s, c)..]
  {
    assert s[..RunOf(s, c)] == Repeat(c, RunOf(s, c));
  }

  lemma FenceOfShape(line: string, indent: nat, mark: char, n: nat, rest: string)
    requires FenceShape(line, indent, mark, n, rest)
    ensures FenceOn(line) == Some((Fence(mark, n), rest))
  {
    var body := Repeat(mark, n) + rest;
    assert body[0] == mark;
    RunCounts(' ', indent, body);
    RunCounts(mark, n, rest);
    assert line[indent..] == body && body[n..] == rest;
  }

  /** A fence opens: at most three spaces, three or more of the same mark, and an info string on the line that
      holds no backtick if the mark is one. */
  lemma OpenerIs(line: string, fence: Fence)
    ensures OpenerOf(line) == Some(fence) <==>
            exists indent: nat, info: string :: FenceShape(line, indent, fence.mark, fence.length, info)
              && (forall k :: 0 <= k < |info| ==> !IsLineTerminator(info[k])) && (fence.mark == '`' ==> '`' !in info)
  {
    hide FenceOn, FenceShape;
    var cut := FenceCut(line);
    forall indent: nat, info: string | FenceShape(line, indent, fence.mark, fence.length, info)
      ensures FenceOn(line) == Some((fence, info))
    {
      FenceOfShape(line, indent, fence.mark, fence.length, info);
    }
  }

  /** A fence closes: the same mark at least as often, and nothing but blanks after it. */
  lemma CloserIs(line: string, open: Fence)
    ensures Closes(open, line) <==>
            exists indent: nat, n: nat, blanks: string :: FenceShape(line, indent, open.mark, n, blanks)
              && n >= open.length && forall k :: 0 <= k < |blanks| ==> blanks[k] == ' ' || blanks[k] == '\t'
  {
    hide FenceOn, FenceShape;
    var cut := FenceCut(line);
    forall indent: nat, n: nat, blanks: string | FenceShape(line, indent, open.mark, n, blanks)
      ensures FenceOn(line) == Some((Fence(open.mark, n), blanks))
    {
      FenceOfShape(line, indent, open.mark, n, blanks);
    }
  }

  predicate AllSpace(s: string)
  {
    forall k :: 0 <= k < |s| ==> IsSpace(s[k])
  }

  lemma {:induction false} TrimStartCuts(s: string) returns (space: string)
    ensures s == space + TrimStart(s) && AllSpace(space)
  {
    if s != "" && IsSpace(s[0]) {
      var rest := TrimStartCuts(s[1..]);
      space := [s[0]] + rest;
    } else {
      space := "";
    }
  }

  lemma {:induction false} TrimStartSkips(space: string, rest: string)
    requires AllSpace(space) && (rest == "" || !IsSpace(rest[0]))
    ensures TrimStart(space + rest) == rest
  {
    if space == "" {
      assert space + rest == rest;
    } else {
      assert (space + rest)[0] == space[0] && (space + rest)[1..] == space[1..] + rest;
      TrimStartSkips(space[1..], rest);
    }
  }

  lemma {:induction false} TrimEndSkips(rest: string, space: string)
    requires AllSpace(space) && (rest == "" || !IsSpace(Last(rest)))
    ensures TrimEnd(rest + space) == rest
  {
    if space == "" {
      assert rest + space == rest;
    } else {
      assert Last(rest + space) == Last(space) && Front(rest + space) == rest + Front(space);
      TrimEndSkips(rest, Front(space));
    }
  }

  /** The heading: two signs, white space or none, the name, and then the end of a word. */
  predicate HeadingShape(line: string, space: string, rest: string)
  {
    && line == "##" + (space + ("UniversalPeer" + rest))
    && AllSpace(space) && (rest == "" || !IsWordChar(rest[0]))
  }

  lemma HeadingIs(line: string)
    ensures IsHeading(line) <==> exists space, rest :: HeadingShape(line, space, rest)
  {
    hide TrimStart;
    if IsHeading(line) {
      var space := TrimStartCuts(line[2..]);
      var after := TrimStart(line[2..]);
      assert after == "UniversalPeer" + after[13..] && line == "##" + line[2..];
      assert HeadingShape(line, space, after[13..]);
    }
    if space, rest :| HeadingShape(line, space, rest) { HeadingOfShape(line, space, rest); }
  }

  lemma HeadingOfShape(line: string, space: string, rest: string)
    requires HeadingShape(line, space, rest)
    ensures IsHeading(line)
  {
    hide TrimStart;
    var after := "UniversalPeer" + rest;
    assert line[2..] == space + after && after[0] == 'U' && after[..13] == "UniversalPeer" && after[13..] == rest;
    assert line[..2] == "##";
    TrimStartSkips(space, after);
  }

  /** A heading of level one or two. */
  lemma SectionIs(line: string)
    ensures IsSection(line) <==>
            exists sign, space, rest: string ::
              (sign == "#" || sign == "##") && IsSpace(space) && line == sign + [space] + rest
  {
    if IsSection(line) {
      var n := if line[0] == '#' && IsSpace(line[1]) then 1 else 2;
      var sign := line[..n];
      assert line == sign + [line[n]] + line[n + 1..];
      assert sign == "#" || sign == "##";
    }
  }

  /** `Trim` takes the white space off both ends and nothing else. */
  predicate TrimShape(s: string, before: string, t: string, after: string)
  {
    && s == before + (t + after) && AllSpace(before) && AllSpace(after)
    && (t == "" || (!IsSpace(t[0]) && !IsSpace(t[|t| - 1])))
  }

  lemma TrimIs(s: string, t: string)
    requires t != ""
    ensures Trim(s) == t <==> exists before, after :: TrimShape(s, before, t, after)
  {
    hide TrimStart, TrimEnd;
    if Trim(s) == t {
      var start := TrimStart(s);
      var before := TrimStartCuts(s);
      TrimStartStops(s);
      TrimEndLast(start);
      var after := start[|t|..];
      assert start == t + after && start[0] == t[0];
      assert TrimShape(s, before, t, after);
    }
    if before, after :| TrimShape(s, before, t, after) {
      assert (t + after)[0] == t[0];
      TrimStartSkips(before, t + after);
      TrimEndSkips(t, after);
    }
  }
}
