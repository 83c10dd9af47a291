/** The managed block that `universal-peer-mcp setup` keeps in a user's AGENTS.md
    (src/setup.mjs): which lines are outside fenced code blocks, and what the next text is. */
module SetupRule {
  import opened Sequences
  import opened JsText

  const BEGIN_MARK: string := "universal-peer:begin"
  const END_MARK: string := "universal-peer:end"
  const RULE_BEGIN: string := "<!-- " + BEGIN_MARK + " (managed by `universal-peer-mcp setup`) -->"
  const RULE_END: string := "<!-- " + END_MARK + " -->"

  // ---------- characters ----------

  predicate IsWordChar(c: char)
  {
    'a' <= c <= 'z' || 'A' <= c <= 'Z' || '0' <= c <= '9' || c == '_'
  }

  predicate StartsWith(s: string, prefix: string)
  {
    prefix <= s
  }

  predicate Contains(s: string, part: string)
  {
    exists i :: 0 <= i <= |s| && StartsWith(s[i..], part)
  }

  predicate Mention(line: string)
  {
    Contains(line, BEGIN_MARK) || Contains(line, END_MARK)
  }

  // ---------- code fences, section 4.5 of the CommonMark Spec ----------

  datatype Fence = Fence(mark: char, length: nat)

  function RunOf(s: string, c: char): (n: nat)
    ensures n <= |s|
    ensures forall k :: 0 <= k < n ==> s[k] == c
    ensures n < |s| ==> s[n] != c
  {
    if s != [] && s[0] == c then 1 + RunOf(s[1..], c) else 0
  }

  /** The fence a line would be read as, and what follows it. */
  function FenceOn(line: string): Option<(Fence, string)>
  {
    var indent := RunOf(line, ' ');
    var rest := line[indent..];
    if indent > 3 || rest == [] || (rest[0] != '`' && rest[0] != '~') then None
    else
      var n := RunOf(rest, rest[0]);
      if n < 3 then None else Some((Fence(rest[0], n), rest[n..]))
  }

  function OpenerOf(line: string): Option<Fence>
  {
    match FenceOn(line)
    case None => None
    case Some((fence, info)) =>
      if (exists k :: 0 <= k < |info| && IsLineTerminator(info[k])) || (fence.mark == '`' && '`' in info)
      then None else Some(fence)
  }

  predicate Closes(open: Fence, line: string)
  {
    match FenceOn(line)
    case None => false
    case Some((fence, rest)) =>
      && fence.mark == open.mark && fence.length >= open.length
      && forall k :: 0 <= k < |rest| ==> rest[k] == ' ' || rest[k] == '\t'
  }

  function StepFence(open: Option<Fence>, line: string): Option<Fence>
  {
    match open
    case Some(fence) => if Closes(fence, line) then None else open
    case None => OpenerOf(line)
  }

  function FenceAfter(open: Option<Fence>, lines: seq<string>): Option<Fence>
    decreases lines
  {
    if lines == [] then open else FenceAfter(StepFence(open, lines[0]), lines[1..])
  }

  datatype Row = Row(line: string, index: nat, live: bool)

  function RowOf(open: Option<Fence>, line: string, index: nat): Row
  {
    Row(line, index, open.None? && OpenerOf(line).None?)
  }

  function Rows(open: Option<Fence>, lines: seq<string>, first: nat): (rows: seq<Row>)
    ensures |rows| == |lines|
    decreases lines
  {
    if lines == [] then []
    else [RowOf(open, lines[0], first)] + Rows(StepFence(open, lines[0]), lines[1..], first + 1)
  }

  function Filter(rows: seq<Row>, p: Row -> bool): seq<Row>
  {
    if rows == [] then [] else (if p(rows[0]) then [rows[0]] else []) + Filter(rows[1..], p)
  }

  /** The loop over the lines, with the fence that is open at each of them. */
  method LiveLines(text: string) returns (rows: seq<Row>)
    ensures rows == Rows(None, Split(text, '\n'), 0)
  {
    hide Rows, FenceAfter, FenceOn, OpenerOf, Closes, Split;
    var lines := Split(text, '\n');
    var open := None;
    rows := [];
    NoLines();
    for index := 0 to |lines|
      invariant open == FenceAfter(None, lines[..index])
      invariant rows == Rows(None, lines[..index], 0)
    {
      var line := lines[index];
      FenceAppend(None, lines[..index], [line]);
      RowsAppend(None, lines[..index], [line], 0);
      OneRow(open, line, index);
      OneFence(open, line);
      assert lines[..index + 1] == lines[..index] + [line];
      if open.Some? {
        rows := rows + [Row(line, index, false)];
        if Closes(open.value, line) { open := None; }
      } else {
        var opener := OpenerOf(line);
        rows := rows + [Row(line, index, opener.None?)];
        open := opener;
      }
    }
    assert lines[..|lines|] == lines;
  }

  // ---------- the plan ----------

  predicate LiveBegin(r: Row) { r.live && r.line == RULE_BEGIN }
  predicate LiveEnd(r: Row) { r.live && r.line == RULE_END }
  predicate Mentioning(r: Row) { Mention(r.line) }
  predicate LiveHeading(r: Row) { r.live && IsHeading(r.line) }
  predicate LiveSection(r: Row) { r.live && IsSection(r.line) }

  /** `/^##\s*UniversalPeer\b/` */
  predicate IsHeading(line: string)
  {
    StartsWith(line, "##") &&
    var rest := TrimStart(line[2..]);
    StartsWith(rest, "UniversalPeer") && (|rest| == 13 || !IsWordChar(rest[13]))
  }

  /** `/^#{1,2}\s/` */
  predicate IsSection(line: string)
  {
    || (|line| >= 2 && line[0] == '#' && IsSpace(line[1]))
    || (|line| >= 3 && line[..2] == "##" && IsSpace(line[2]))
  }

  function FirstAfter(rows: seq<Row>, start: nat): Option<Row>
  {
    if rows == [] then None
    else if rows[0].index > start then Some(rows[0])
    else FirstAfter(rows[1..], start)
  }

  function TrailingBlanks(lines: seq<string>): (n: nat)
    ensures n <= |lines|
    ensures forall k :: |lines| - n <= k < |lines| ==> lines[k] == ""
    ensures n < |lines| ==> lines[|lines| - 1 - n] != ""
  {
    if lines != [] && Last(lines) == "" then 1 + TrailingBlanks(Front(lines)) else 0
  }

  function Blanks(n: nat): (lines: seq<string>)
    ensures |lines| == n && forall k :: 0 <= k < n ==> lines[k] == ""
  {
    seq(n, _ => "")
  }

  method CountBlanks(lines: seq<string>) returns (blanks: nat)
    ensures blanks == TrailingBlanks(lines)
  {
    blanks := 0;
    while blanks < |lines| && lines[|lines| - 1 - blanks] == ""
      invariant blanks <= |lines|
      invariant TrailingBlanks(lines) == blanks + TrailingBlanks(lines[..|lines| - blanks])
    {
      assert Front(lines[..|lines| - blanks]) == lines[..|lines| - blanks - 1];
      blanks := blanks + 1;
    }
  }

  /** The four reasons for leaving the file alone. */
  datatype Reason = MarkersNotOnePair | SeveralSections | SectionNotShipped | FenceLeftOpen

  datatype Plan =
    | Create(text: string)
    | Update(text: string)
    | Convert(text: string)
    | Append(text: string)
    | Unchanged
    | Conflict(reason: Reason)

  function Block(rule: string): string
  {
    RULE_BEGIN + "\n" + rule + "\n" + RULE_END
  }

  function Lines(text: string): (lines: seq<string>)
    ensures lines != []
  {
    Split(text, '\n')
  }

  function PlanRule(current: Option<string>, rule: string, earlier: seq<string>): Plan
  {
    if current.None? || Trim(current.value) == "" then Create(Block(rule) + "\n")
    else
      var rows := Rows(None, Lines(current.value), 0);
      if Filter(rows, Mentioning) != [] then PlanManaged(current.value, rows, rule)
      else if |Filter(rows, LiveHeading)| > 1 then Conflict(SeveralSections)
      else if |Filter(rows, LiveHeading)| == 1 then PlanUnmarked(current.value, rows, rule, earlier)
      else PlanAppend(current.value, rule)
  }

  function PlanManaged(text: string, rows: seq<Row>, rule: string): Plan
  {
    var begins := Filter(rows, LiveBegin);
    var ends := Filter(rows, LiveEnd);
    if |begins| != 1 || |ends| != 1 || |Filter(rows, Mentioning)| != 2 || begins[0].index > ends[0].index
    then Conflict(MarkersNotOnePair)
    else
      var next :=
        Join(Before(Lines(text), begins[0].index) + Lines(Block(rule)) + From(Lines(text), ends[0].index + 1), '\n');
      if next == text then Unchanged else Update(next)
  }

  /** `lines.slice(0, i)` and `lines.slice(i)` */
  function Before(lines: seq<string>, i: nat): seq<string> { if i <= |lines| then lines[..i] else lines }
  function From(lines: seq<string>, i: nat): seq<string> { if i <= |lines| then lines[i..] else [] }

  function SectionEnd(rows: seq<Row>, start: nat): nat
  {
    var after := FirstAfter(Filter(rows, LiveSection), start);
    if after.Some? then after.value.index else |rows|
  }

  function PlanUnmarked(text: string, rows: seq<Row>, rule: string, earlier: seq<string>): Plan
    requires |Filter(rows, LiveHeading)| == 1
  {
    var lines := Lines(text);
    var start := Filter(rows, LiveHeading)[0].index;
    var stop := SectionEnd(rows, start);
    var section := From(Before(lines, stop), start);
    if Trim(Join(section, '\n')) !in [rule] + earlier
    then Conflict(SectionNotShipped)
    else
      Convert(Join(Before(lines, start) + Lines(Block(rule)) + Blanks(TrailingBlanks(section))
                   + From(lines, stop), '\n'))
  }

  function PlanAppend(text: string, rule: string): Plan
  {
    var trimmed := TrimEnd(text);
    if !Last(Rows(None, Lines(trimmed + "\n\nprobe"), 0)).live
    then Conflict(FenceLeftOpen)
    else Append(trimmed + "\n\n" + Block(rule) + "\n")
  }

  /** The planner as it runs: the line loop first, and the blank-line loop for a conversion. */
  method MakePlan(current: Option<string>, rule: string, earlier: seq<string>) returns (plan: Plan)
    ensures plan == PlanRule(current, rule, earlier)
  {
    if current.None? || Trim(current.value) == "" { return Create(Block(rule) + "\n"); }
    var text := current.value;
    var rows := LiveLines(text);
    if Filter(rows, Mentioning) != [] { return PlanManaged(text, rows, rule); }
    var headings := Filter(rows, LiveHeading);
    if |headings| > 1 { return Conflict(SeveralSections); }
    if |headings| == 1 {
      var lines := Split(text, '\n');
      var start, stop := headings[0].index, SectionEnd(rows, headings[0].index);
      var section := From(Before(lines, stop), start);
      if Trim(Join(section, '\n')) !in [rule] + earlier {
        return Conflict(SectionNotShipped);
      }
      var blanks := CountBlanks(section);
      return Convert(Join(Before(lines, start) + Lines(Block(rule)) + Blanks(blanks) + From(lines, stop), '\n'));
    }
    var probe := LiveLines(TrimEnd(text) + "\n\nprobe");
    if !Last(probe).live { return Conflict(FenceLeftOpen); }
    plan := Append(TrimEnd(text) + "\n\n" + Block(rule) + "\n");
  }

  // ---------- concatenation ----------

  lemma {:induction false} FenceAppend(open: Option<Fence>, a: seq<string>, b: seq<string>)
    ensures FenceAfter(open, a + b) == FenceAfter(FenceAfter(open, a), b)
    decreases a
  {
    hide StepFence;
    if a == [] {
      assert a + b == b;
    } else {
      assert (a + b)[0] == a[0] && (a + b)[1..] == a[1..] + b;
      FenceAppend(StepFence(open, a[0]), a[1..], b);
    }
  }

  lemma {:induction false} RowsAppend(open: Option<Fence>, a: seq<string>, b: seq<string>, first: nat)
    ensures Rows(open, a + b, first) == Rows(open, a, first) + Rows(FenceAfter(open, a), b, first + |a|)
    decreases a
  {
    hide RowOf, StepFence;
    if a == [] {
      assert a + b == b;
    } else {
      var next := StepFence(open, a[0]);
      RowsAppend(next, a[1..], b, first + 1);
      Assoc([RowOf(open, a[0], first)], Rows(next, a[1..], first + 1), Rows(FenceAfter(open, a), b, first + |a|));
      assert (a + b)[0] == a[0] && (a + b)[1..] == a[1..] + b;
    }
  }

  lemma {:induction false} FilterAppend(a: seq<Row>, b: seq<Row>, p: Row -> bool)
    ensures Filter(a + b, p) == Filter(a, p) + Filter(b, p)
  {
    if a == [] {
      assert a + b == b;
    } else {
      FilterAppend(a[1..], b, p);
      Assoc(if p(a[0]) then [a[0]] else [], Filter(a[1..], p), Filter(b, p));
      assert (a + b)[0] == a[0] && (a + b)[1..] == a[1..] + b;
    }
  }

  // ---------- what the filters find ----------

  /** No line carries marker text. */
  ghost predicate Quiet(lines: seq<string>)
  {
    forall k :: 0 <= k < |lines| ==> !Mention(lines[k])
  }

  lemma RowIndex(open: Option<Fence>, line: string, index: nat)
    ensures RowOf(open, line, index).index == index
  {
  }

  lemma {:induction false} RowIs(open: Option<Fence>, lines: seq<string>, first: nat, r: Row)
    requires r in Rows(open, lines, first)
    ensures first <= r.index < first + |lines|
    ensures r == RowOf(FenceAfter(open, lines[..r.index - first]), lines[r.index - first], r.index)
    decreases lines
  {
    hide RowOf, StepFence;
    var head := RowOf(open, lines[0], first);
    assert head.index == first by { RowIndex(open, lines[0], first); }
    if r == head {
      assert FenceAfter(open, lines[..0]) == open;
    } else {
      RowIs(StepFence(open, lines[0]), lines[1..], first + 1, r);
      assert lines[..r.index - first][1..] == lines[1..][..r.index - first - 1];
    }
  }

  lemma {:induction false} FilterIn(rows: seq<Row>, p: Row -> bool, r: Row)
    ensures r in Filter(rows, p) <==> r in rows && p(r)
  {
    if rows != [] {
      FilterIn(rows[1..], p, r);
    }
  }

  /** A filtered row is a line of the document with the status the fence state gives it. */
  lemma FilteredRow(lines: seq<string>, p: Row -> bool, r: Row)
    requires r in Filter(Rows(None, lines, 0), p)
    ensures r.index < |lines| && p(r)
    ensures r == RowOf(FenceAfter(None, lines[..r.index]), lines[r.index], r.index)
  {
    FilterIn(Rows(None, lines, 0), p, r);
    RowIs(None, lines, 0, r);
  }

  lemma NoFence(line: string)
    requires line == [] || line[0] !in [' ', '`', '~']
    ensures FenceOn(line) == None
  {
    assert line[0..] == line;
  }

  lemma Markers()
    ensures Mention(RULE_BEGIN) && Mention(RULE_END)
    ensures RULE_BEGIN != RULE_END
    ensures FenceOn(RULE_BEGIN) == None && FenceOn(RULE_END) == None
  {
    var open := "<!-- ";
    assert RULE_BEGIN == open + (BEGIN_MARK + " (managed by `universal-peer-mcp setup`) -->");
    assert RULE_BEGIN[5..] == BEGIN_MARK + " (managed by `universal-peer-mcp setup`) -->";
    assert StartsWith(RULE_BEGIN[5..], BEGIN_MARK);
    assert RULE_END == open + (END_MARK + " -->");
    assert RULE_END[5..] == END_MARK + " -->";
    assert StartsWith(RULE_END[5..], END_MARK);
    assert RULE_BEGIN[0] == open[0] && RULE_END[0] == open[0];
    NoFence(RULE_BEGIN);
    NoFence(RULE_END);
  }

  lemma FilterRows(a: seq<string>, b: seq<string>, p: Row -> bool)
    ensures Filter(Rows(None, a + b, 0), p) == Filter(Rows(None, a, 0), p)
        + Filter(Rows(FenceAfter(None, a), b, |a|), p)
  {
    RowsAppend(None, a, b, 0);
    FilterAppend(Rows(None, a, 0), Rows(FenceAfter(None, a), b, |a|), p);
  }

  /** One more line that is no fence. */
  lemma FilterPlain(a: seq<string>, x: string, p: Row -> bool)
    requires FenceOn(x) == None
    ensures FenceAfter(None, a + [x]) == FenceAfter(None, a)
    ensures Filter(Rows(None, a + [x], 0), p)
         == Filter(Rows(None, a, 0), p) + Filter([Row(x, |a|, FenceAfter(None, a).None?)], p)
  {
    var open := FenceAfter(None, a);
    FilterRows(a, [x], p);
    FenceAppend(None, a, [x]);
    assert StepFence(open, x) == open && [x][1..] == [];
    assert FenceAfter(open, [x]) == open;
    assert Rows(open, [x], |a|) == [Row(x, |a|, open.None?)];
  }

  /** Filtering a document cut around two lines that are no fences themselves. */
  lemma FilterAround(pre: seq<string>, x: string, mid: seq<string>, y: string, post: seq<string>, p: Row -> bool)
    requires FenceAfter(None, pre) == None && FenceOn(x) == None && FenceOn(y) == None
    ensures FenceAfter(None, pre + [x] + mid + [y]) == FenceAfter(None, mid)
    ensures Filter(Rows(None, pre + [x] + mid + [y] + post, 0), p)
         == Filter(Rows(None, pre, 0), p)
          + Filter([Row(x, |pre|, true)], p)
          + Filter(Rows(None, mid, |pre| + 1), p)
          + Filter([Row(y, |pre| + 1 + |mid|, FenceAfter(None, mid).None?)], p)
          + Filter(Rows(FenceAfter(None, mid), post, |pre| + |mid| + 2), p)
  {
    hide Rows, FenceAfter, Filter, FenceOn;
    var a := pre + [x];
    FilterPlain(pre, x, p);
    FilterRows(a, mid, p);
    FenceAppend(None, a, mid);
    FilterPlain(a + mid, y, p);
    FilterRows(a + mid + [y], post, p);
  }

  lemma {:induction false} QuietRows(open: Option<Fence>, lines: seq<string>, first: nat)
    ensures Filter(Rows(open, lines, first), Mentioning) == [] <==> Quiet(lines)
    ensures Quiet(lines)
        ==> Filter(Rows(open, lines, first), LiveBegin) == [] && Filter(Rows(open, lines, first), LiveEnd) == []
    decreases lines
  {
    hide Mention, StepFence, OpenerOf;
    Markers();
    if lines != [] {
      QuietRows(StepFence(open, lines[0]), lines[1..], first + 1);
      assert lines == [lines[0]] + lines[1..];
      assert Quiet(lines) <==> !Mention(lines[0]) && Quiet(lines[1..]);
    }
  }

  // ---------- the text a plan produces ----------

  ghost predicate Plain(lines: seq<string>)
  {
    forall k :: 0 <= k < |lines| ==> '\n' !in lines[k]
  }

  /** Lines a block can stand between: no marker text, and no fence open where the block goes. */
  ghost predicate Frame(pre: seq<string>, post: seq<string>)
  {
    Plain(pre) && Plain(post) && Quiet(pre) && Quiet(post) && FenceAfter(None, pre) == None
  }

  ghost function Wrapped(pre: seq<string>, rule: string, post: seq<string>): string
  {
    Join(pre + Lines(Block(rule)) + post, '\n')
  }

  /** A rule that can be managed: no marker text of its own, and every fence it opens it closes. */
  ghost predicate Settled(rule: string)
  {
    Quiet(Lines(rule)) && FenceAfter(None, Lines(rule)) == None
  }

  ghost predicate Accepted(plan: Plan)
  {
    !plan.Conflict?
  }

  /** The document once the plan is carried out. */
  ghost function Applied(current: Option<string>, plan: Plan): string
    requires Accepted(plan)
  {
    if !plan.Unchanged? then plan.text else if current.Some? then current.value else ""
  }

  lemma MarkersPlain()
    ensures '\n' !in RULE_BEGIN && '\n' !in RULE_END
  {
    assert '\n' !in BEGIN_MARK && '\n' !in END_MARK;
    assert '\n' !in " (managed by `universal-peer-mcp setup`) -->";
  }

  lemma LinesPlain(text: string)
    ensures Plain(Lines(text))
  {
    SplitPiecesFree(text, '\n');
  }

  lemma BlockLines(rule: string)
    ensures Lines(Block(rule)) == [RULE_BEGIN] + Lines(rule) + [RULE_END]
    ensures Plain(Lines(Block(rule)))
  {
    MarkersPlain();
    BetweenLines(RULE_BEGIN, rule, RULE_END);
    SplitPiecesFree(Block(rule), '\n');
  }

  lemma BetweenLines(x: string, mid: string, y: string)
    requires '\n' !in x && '\n' !in y
    ensures Lines(x + "\n" + mid + "\n" + y) == [x] + Lines(mid) + [y]
  {
    SplitPiece(x, '\n');
    SplitPiece(y, '\n');
    var rest := mid + ['\n'] + y;
    SplitAtSeparator(mid, y, '\n');
    SplitAtSeparator(x, rest, '\n');
    assert x + "\n" + mid + "\n" + y == x + ['\n'] + rest;
  }

  lemma WrappedLines(pre: seq<string>, rule: string, post: seq<string>)
    requires Plain(pre) && Plain(post)
    ensures Lines(Wrapped(pre, rule, post)) == pre + Lines(Block(rule)) + post
  {
    BlockLines(rule);
    SplitJoin(pre + Lines(Block(rule)) + post, '\n');
  }

  lemma {:induction false} JoinHas(lines: seq<string>, k: nat, c: char)
    requires k < |lines| && c in lines[k]
    ensures c in Join(lines, '\n')
  {
    if k > 0 { JoinHas(lines[1..], k - 1, c); }
  }

  lemma {:induction false} TrimStartBlank(s: string)
    ensures TrimStart(s) == "" ==> forall k :: 0 <= k < |s| ==> IsSpace(s[k])
  {
    if s != [] && IsSpace(s[0]) {
      TrimStartBlank(s[1..]);
    }
  }

  lemma {:induction false} TrimBlank(s: string)
    requires Trim(s) == ""
    ensures forall k :: 0 <= k < |s| ==> IsSpace(s[k])
  {
    var t := TrimStart(s);
    TrimStartStops(s);
    assert |TrimEnd(t)| == 0;
    if t != "" { assert false; }
    TrimStartBlank(s);
  }

  lemma {:induction false} TrimStartStops(s: string)
    ensures TrimStart(s) == "" || !IsSpace(TrimStart(s)[0])
  {
    if s != [] && IsSpace(s[0]) { TrimStartStops(s[1..]); }
  }

  lemma WrappedNotBlank(pre: seq<string>, rule: string, post: seq<string>)
    ensures Trim(Wrapped(pre, rule, post)) != ""
  {
    hide Lines, Block, Trim, Join;
    BlockLines(rule);
    var lines := pre + Lines(Block(rule)) + post;
    assert lines[|pre|] == RULE_BEGIN && RULE_BEGIN[0] == '<';
    JoinHas(lines, |pre|, '<');
    if Trim(Wrapped(pre, rule, post)) == "" {
      TrimBlank(Wrapped(pre, rule, post));
    }
  }

  lemma FilterOne(r: Row, p: Row -> bool)
    ensures Filter([r], p) == if p(r) then [r] else []
  {
    assert [r][1..] == [];
  }

  /** One filter over a document with a block in it. */
  lemma BlockRows(pre: seq<string>, rule: string, post: seq<string>, p: Row -> bool)
    requires Frame(pre, post)
    ensures var mid := Lines(rule);
            var f := FenceAfter(None, mid);
            var begin, end := Row(RULE_BEGIN, |pre|, true), Row(RULE_END, |pre| + 1 + |mid|, f.None?);
            Filter(Rows(None, Lines(Wrapped(pre, rule, post)), 0), p)
            == Filter(Rows(None, pre, 0), p)
             + (if p(begin) then [begin] else [])
             + Filter(Rows(None, mid, |pre| + 1), p)
             + (if p(end) then [end] else [])
             + Filter(Rows(f, post, |pre| + |mid| + 2), p)
  {
    hide Rows, FenceAfter, Filter, Lines, Contains, Mention, Wrapped, Block, FenceOn;
    var mid := Lines(rule);
    WrappedLines(pre, rule, post);
    BlockLines(rule);
    Markers();
    assert pre + ([RULE_BEGIN] + mid + [RULE_END]) + post == pre + [RULE_BEGIN] + mid + [RULE_END] + post;
    FilterAround(pre, RULE_BEGIN, mid, RULE_END, post, p);
    FilterOne(Row(RULE_BEGIN, |pre|, true), p);
    FilterOne(Row(RULE_END, |pre| + 1 + |mid|, FenceAfter(None, mid).None?), p);
  }

  /** The rows a managed document shows to the planner. */
  lemma FrameQuiet(pre: seq<string>, post: seq<string>)
    requires Frame(pre, post)
    ensures Quiet(pre) && Quiet(post)
  {
  }

  lemma ManagedMentions(pre: seq<string>, rule: string, post: seq<string>)
    requires Frame(pre, post)
    ensures |Filter(Rows(None, Lines(Wrapped(pre, rule, post)), 0), Mentioning)| >= 2
    ensures |Filter(Rows(None, Lines(Wrapped(pre, rule, post)), 0), Mentioning)| == 2 <==> Quiet(Lines(rule))
  {
    hide Rows, FenceAfter, Filter, Lines, Contains, Mention, Wrapped, Block, FenceOn, Frame;
    assert Quiet(pre) && Quiet(post) by { FrameQuiet(pre, post); }
    Markers();
    BlockRows(pre, rule, post, Mentioning);
    QuietRows(None, pre, 0);
    QuietRows(None, Lines(rule), |pre| + 1);
    QuietRows(FenceAfter(None, Lines(rule)), post, |pre| + |Lines(rule)| + 2);
  }

  lemma ManagedBegin(pre: seq<string>, rule: string, post: seq<string>)
    requires Frame(pre, post) && Quiet(Lines(rule))
    ensures Filter(Rows(None, Lines(Wrapped(pre, rule, post)), 0), LiveBegin) == [Row(RULE_BEGIN, |pre|, true)]
  {
    hide Rows, FenceAfter, Filter, Lines, Contains, Mention, Wrapped, Block, FenceOn;
    Markers();
    BlockRows(pre, rule, post, LiveBegin);
    QuietRows(None, pre, 0);
    QuietRows(None, Lines(rule), |pre| + 1);
    QuietRows(FenceAfter(None, Lines(rule)), post, |pre| + |Lines(rule)| + 2);
  }

  lemma ManagedEnd(pre: seq<string>, rule: string, post: seq<string>)
    requires Frame(pre, post) && Quiet(Lines(rule))
    ensures Filter(Rows(None, Lines(Wrapped(pre, rule, post)), 0), LiveEnd)
         == if Settled(rule) then [Row(RULE_END, |pre| + 1 + |Lines(rule)|, true)] else []
  {
    hide Rows, FenceAfter, Filter, Lines, Contains, Mention, Wrapped, Block, FenceOn;
    Markers();
    BlockRows(pre, rule, post, LiveEnd);
    QuietRows(None, pre, 0);
    QuietRows(None, Lines(rule), |pre| + 1);
    QuietRows(FenceAfter(None, Lines(rule)), post, |pre| + |Lines(rule)| + 2);
  }

  /** Planning again over a document this tool wrote: the block is replaced where it stands,
      provided the rule in it is settled; otherwise the document is a conflict from then on. */
  lemma Replan(pre: seq<string>, post: seq<string>, first: string, second: string, earlier: seq<string>)
    requires Frame(pre, post)
    ensures var text := Wrapped(pre, first, post);
            var next := Wrapped(pre, second, post);
            var plan := PlanRule(Some(text), second, earlier);
            && (Settled(first) ==> plan == if next == text then Unchanged else Update(next))
            && (!Settled(first) ==> plan.Conflict?)
  {
    hide Rows, FenceAfter, Filter, Trim, Join;
    ManagedMentions(pre, first, post);
    if Quiet(Lines(first)) {
      ManagedBegin(pre, first, post);
      ManagedEnd(pre, first, post);
    }
    WrappedNotBlank(pre, first, post);
    WrappedLines(pre, first, post);
    BlockLines(first);
    var lines := Lines(Wrapped(pre, first, post));
    assert lines[..|pre|] == pre;
    assert lines[|pre| + 2 + |Lines(first)|..] == post;
  }

  /** What the planner keeps around the block. It is read off the document alone. */
  ghost function Around(current: Option<string>): (seq<string>, seq<string>)
  {
    if current.None? || Trim(current.value) == "" then ([], [""])
    else
      var lines := Lines(current.value);
      var rows := Rows(None, lines, 0);
      if Filter(rows, Mentioning) != [] then
        if Filter(rows, LiveBegin) == [] || Filter(rows, LiveEnd) == [] then ([], [])
        else (Before(lines, Filter(rows, LiveBegin)[0].index), From(lines, Filter(rows, LiveEnd)[0].index + 1))
      else if Filter(rows, LiveHeading) != [] then
        var start := Filter(rows, LiveHeading)[0].index;
        var stop := SectionEnd(rows, start);
        (Before(lines, start), Blanks(TrailingBlanks(From(Before(lines, stop), start))) + From(lines, stop))
      else (Lines(TrimEnd(current.value)) + [""], [""])
  }

  lemma CreateWraps(rule: string)
    ensures Frame([], [""])
    ensures Block(rule) + "\n" == Wrapped([], rule, [""])
  {
    assert Quiet([""]) by { EmptyQuiet(); }
    SplitAtSeparator(Block(rule), "", '\n');
    assert Block(rule) + ['\n'] + "" == Block(rule) + "\n";
    JoinSplit(Block(rule) + "\n", '\n');
    assert [] + Lines(Block(rule)) + [""] == Lines(Block(rule)) + [""];
  }

  lemma EmptyQuiet()
    ensures !Mention("")
  {
    assert forall i :: 0 <= i <= |""| ==> ""[i..] == "";
    assert |BEGIN_MARK| == 20 && |END_MARK| == 18;
  }

  /** One clean pair of markers: the document is quiet lines, the pair, and quiet lines. */
  lemma ManagedWraps(text: string, rule: string)
    requires Accepted(PlanManaged(text, Rows(None, Lines(text), 0), rule))
    ensures var rows, lines := Rows(None, Lines(text), 0), Lines(text);
            && |Filter(rows, LiveBegin)| == 1 && |Filter(rows, LiveEnd)| == 1
            && var b, e := Filter(rows, LiveBegin)[0].index, Filter(rows, LiveEnd)[0].index;
            && b < e < |lines| && lines[b] == RULE_BEGIN && lines[e] == RULE_END
            && FenceAfter(None, lines[..e + 1]) == None
            && Frame(lines[..b], lines[e + 1..])
  {
    hide Rows, FenceAfter, Filter, Lines, Join, Mention, FenceOn, OpenerOf, Block, Trim;
    var lines := Lines(text);
    var rows := Rows(None, lines, 0);
    var b, e := Filter(rows, LiveBegin)[0], Filter(rows, LiveEnd)[0];
    FilteredRow(lines, LiveBegin, b);
    FilteredRow(lines, LiveEnd, e);
    Markers();
    assert b.index < e.index;
    LinesPlain(text);
    MarkedPair(lines, b.index, e.index);
  }

  lemma MarkedPair(lines: seq<string>, b: nat, e: nat)
    requires b < e < |lines| && lines[b] == RULE_BEGIN && lines[e] == RULE_END && Plain(lines)
    requires FenceAfter(None, lines[..b]) == None && FenceAfter(None, lines[..e]) == None
    requires |Filter(Rows(None, lines, 0), Mentioning)| == 2
    ensures FenceAfter(None, lines[..e + 1]) == None
    ensures Frame(lines[..b], lines[e + 1..])
  {
    hide Rows, FenceAfter, Filter;
    Markers();
    var pre, mid, post := lines[..b], lines[b + 1..e], lines[e + 1..];
    assert pre + [RULE_BEGIN] + mid + [RULE_END] + post == lines;
    assert lines[..e + 1] == lines[..e] + [RULE_END];
    FilterPlain(lines[..e], RULE_END, Mentioning);
    TwoMentions(pre, mid, post);
  }

  lemma TwoMentions(pre: seq<string>, mid: seq<string>, post: seq<string>)
    requires FenceAfter(None, pre) == None
    requires |Filter(Rows(None, pre + [RULE_BEGIN] + mid + [RULE_END] + post, 0), Mentioning)| == 2
    ensures Quiet(pre) && Quiet(post)
  {
    hide Rows, FenceAfter, Filter;
    Markers();
    FilterAround(pre, RULE_BEGIN, mid, RULE_END, post, Mentioning);
    FilterOne(Row(RULE_BEGIN, |pre|, true), Mentioning);
    FilterOne(Row(RULE_END, |pre| + 1 + |mid|, FenceAfter(None, mid).None?), Mentioning);
    QuietRows(None, pre, 0);
    QuietRows(FenceAfter(None, mid), post, |pre| + |mid| + 2);
  }

  lemma {:induction false} FirstAfterIn(rows: seq<Row>, start: nat)
    ensures FirstAfter(rows, start).Some?
        ==> FirstAfter(rows, start).value in rows && FirstAfter(rows, start).value.index > start
  {
    if rows != [] { FirstAfterIn(rows[1..], start); }
  }

  /** A shipped section outside fences: it starts where no fence is open, and so does what follows it. */
  lemma UnmarkedWraps(text: string)
    requires Filter(Rows(None, Lines(text), 0), Mentioning) == []
    requires |Filter(Rows(None, Lines(text), 0), LiveHeading)| == 1
    ensures var rows, lines := Rows(None, Lines(text), 0), Lines(text);
            var start := Filter(rows, LiveHeading)[0].index;
            var stop := SectionEnd(rows, start);
            && start < stop <= |lines| && IsHeading(lines[start])
            && (stop < |lines| ==> IsSection(lines[stop]) && FenceAfter(None, lines[..stop]) == None)
            && Frame(lines[..start], Blanks(TrailingBlanks(lines[start..stop])) + lines[stop..])
            && From(Before(lines, stop), start) == lines[start..stop]
  {
    hide Rows, FenceAfter, Filter, Lines, Join, Trim;
    var lines := Lines(text);
    var rows := Rows(None, lines, 0);
    var heading := Filter(rows, LiveHeading)[0];
    FilteredRow(lines, LiveHeading, heading);
    var sections := Filter(rows, LiveSection);
    FirstAfterIn(sections, heading.index);
    if FirstAfter(sections, heading.index).Some? {
      FilteredRow(lines, LiveSection, FirstAfter(sections, heading.index).value);
    }
    QuietRows(None, lines, 0);
    LinesPlain(text);
    EmptyQuiet();
    assert Plain(lines) && Quiet(lines);
    var start, stop := heading.index, SectionEnd(rows, heading.index);
    assert FenceAfter(None, lines[..start]) == None;
    var post := Blanks(TrailingBlanks(lines[start..stop])) + lines[stop..];
    assert forall k :: 0 <= k < |post| ==> post[k] == "" || post[k] in lines[stop..];
    assert Plain(post) && Quiet(post);
  }

  lemma {:induction false} SplitGrows(q: string, w: string)
    requires '\n' !in q
    ensures q <= Lines(q + w)[0]
  {
    if q == "" {
    } else {
      SplitGrows(q[1..], w);
      assert (q + w)[1..] == q[1..] + w;
    }
  }

  lemma MentionGrows(a: string, b: string)
    requires a <= b && Mention(a)
    ensures Mention(b)
  {
    if Contains(a, BEGIN_MARK) {
      var i :| 0 <= i <= |a| && StartsWith(a[i..], BEGIN_MARK);
      assert StartsWith(b[i..], BEGIN_MARK);
    } else {
      var i :| 0 <= i <= |a| && StartsWith(a[i..], END_MARK);
      assert StartsWith(b[i..], END_MARK);
    }
  }

  /** Dropping white space at the end keeps all lines but the last, which can only get shorter. */
  lemma TrimmedLines(text: string)
    ensures var kept, lines := Lines(TrimEnd(text)), Lines(text);
            && |kept| <= |lines| && Front(kept) == lines[..|kept| - 1] && Last(kept) <= lines[|kept| - 1]
            && Plain(kept) && (Quiet(lines) ==> Quiet(kept))
  {
    hide Contains, TrimEnd, Split;
    var trimmed := TrimEnd(text);
    var kept := Lines(trimmed);
    var rest := text[|trimmed|..];
    SplitAppend(trimmed, rest, '\n');
    assert trimmed + rest == text;
    SplitPiecesFree(trimmed, '\n');
    SplitGrows(Last(kept), rest);
    if Quiet(Lines(text)) {
      forall k | 0 <= k < |kept| ensures !Mention(kept[k]) {
        if Mention(kept[k]) { MentionGrows(kept[k], Lines(text)[k]); }
      }
    }
  }

  lemma AppendWraps(text: string, rule: string)
    requires Filter(Rows(None, Lines(text), 0), Mentioning) == []
    requires Accepted(PlanAppend(text, rule))
    ensures Frame(Lines(TrimEnd(text)) + [""], [""])
    ensures PlanAppend(text, rule).text == Wrapped(Lines(TrimEnd(text)) + [""], rule, [""])
  {
    hide TrimEnd, Contains, Split, FenceAfter, Rows, Filter, Join;
    var trimmed := TrimEnd(text);
    var pre := Lines(trimmed) + [""];
    TrimmedLines(text);
    QuietRows(None, Lines(text), 0);
    EmptyQuiet();
    ProbeLine(trimmed);
    AppendedText(trimmed, Block(rule));
  }

  lemma ProbeLine(trimmed: string)
    ensures Last(Rows(None, Lines(trimmed + "\n\nprobe"), 0)).live <==> FenceAfter(None, Lines(trimmed) + [""]) == None
  {
    hide Rows, FenceAfter, RowOf, Split;
    BetweenTexts(trimmed, "probe");
    assert trimmed + "\n\nprobe" == trimmed + "\n\n" + "probe";
    SplitPiece("probe", '\n');
    var pre := Lines(trimmed) + [""];
    RowsAppend(None, pre, ["probe"], 0);
    var row := RowOf(FenceAfter(None, pre), "probe", |pre|);
    OneRow(FenceAfter(None, pre), "probe", |pre|);
    assert Last(Rows(None, pre, 0) + [row]) == row;
    assert pre + ["probe"] == Lines(trimmed + "\n\nprobe");
    ProbeRow(FenceAfter(None, pre), |pre|);
  }

  lemma OneRow(open: Option<Fence>, line: string, k: nat)
    ensures Rows(open, [line], k) == [RowOf(open, line, k)]
  {
    hide RowOf;
    assert [line][1..] == [];
  }

  lemma ProbeRow(open: Option<Fence>, k: nat)
    ensures RowOf(open, "probe", k).live <==> open == None
  {
    NoFence("probe");
  }

  lemma BetweenTexts(a: string, b: string)
    ensures Lines(a + "\n\n" + b) == Lines(a) + [""] + Lines(b)
  {
    SplitAtSeparator(a + "\n", b, '\n');
    SplitAtSeparator(a, "", '\n');
    assert a + ['\n'] + "" == a + "\n";
    assert a + "\n\n" + b == (a + "\n") + ['\n'] + b;
  }

  lemma AppendedText(trimmed: string, block: string)
    ensures trimmed + "\n\n" + block + "\n" == Join(Lines(trimmed) + [""] + Lines(block) + [""], '\n')
  {
    var text := trimmed + "\n\n" + block + "\n";
    BetweenTexts(trimmed, block + "\n");
    SplitAtSeparator(block, "", '\n');
    assert block + ['\n'] + "" == block + "\n";
    assert text == trimmed + "\n\n" + (block + "\n");
    Assoc(Lines(trimmed) + [""], Lines(block), [""]);
    JoinSplit(text, '\n');
  }

  /** Every plan that is not a conflict puts the same block between lines that do not depend on the rule. */
  lemma PlanWraps(current: Option<string>, rule: string, earlier: seq<string>)
    requires Accepted(PlanRule(current, rule, earlier))
    ensures var plan := PlanRule(current, rule, earlier);
            && Frame(Around(current).0, Around(current).1)
            && Applied(current, plan) == Wrapped(Around(current).0, rule, Around(current).1)
  {
    hide Rows, FenceAfter, Filter, Lines, Join, Trim;
    if current.None? || Trim(current.value) == "" {
      CreateWraps(rule);
    } else {
      var text := current.value;
      var rows := Rows(None, Lines(text), 0);
      if Filter(rows, Mentioning) != [] {
        ManagedWraps(text, rule);
      } else if |Filter(rows, LiveHeading)| == 1 {
        UnmarkedWraps(text);
        ConvertedText(text, rule, earlier);
      } else {
        AppendWraps(text, rule);
      }
    }
  }

  lemma ConvertedText(text: string, rule: string, earlier: seq<string>)
    requires |Filter(Rows(None, Lines(text), 0), LiveHeading)| == 1
    requires Accepted(PlanUnmarked(text, Rows(None, Lines(text), 0), rule, earlier))
    ensures var rows, lines := Rows(None, Lines(text), 0), Lines(text);
            var start := Filter(rows, LiveHeading)[0].index;
            var stop := SectionEnd(rows, start);
            var post := Blanks(TrailingBlanks(From(Before(lines, stop), start))) + From(lines, stop);
            PlanUnmarked(text, rows, rule, earlier).text == Wrapped(Before(lines, start), rule, post)
  {
    hide Rows, FenceAfter, Filter, Lines, Join, Trim;
    var rows, lines := Rows(None, Lines(text), 0), Lines(text);
    var start := Filter(rows, LiveHeading)[0].index;
    var stop := SectionEnd(rows, start);
    var blanks := Blanks(TrailingBlanks(From(Before(lines, stop), start)));
    Assoc(Before(lines, start) + Lines(Block(rule)), blanks, From(lines, stop));
  }

  // ---------- the theorems ----------

  /** Running setup again on the text it produced: the answer is `unchanged` exactly for a settled
      rule, and for any other rule the document is a conflict from then on. */
  lemma RerunSettles(current: Option<string>, rule: string, earlier: seq<string>, later: seq<string>)
    requires Accepted(PlanRule(current, rule, earlier))
    ensures var again := PlanRule(Some(Applied(current, PlanRule(current, rule, earlier))), rule, later);
            && (again.Unchanged? <==> Settled(rule))
            && (again.Conflict? <==> !Settled(rule))
  {
    hide PlanRule, Around;
    PlanWraps(current, rule, earlier);
    Replan(Around(current).0, Around(current).1, rule, rule, later);
  }

  /** A rule that leaves a fence open is written once and is a conflict ever after. */
  lemma UnclosedRuleConflicts(later: seq<string>)
    ensures PlanRule(None, "```", []).Create?
    ensures PlanRule(Some(PlanRule(None, "```", []).text), "```", later).Conflict?
  {
    var rule := "```";
    SplitPiece(rule, '\n');
    assert RunOf(rule, ' ') == 0 && rule[0..] == rule;
    assert RunOf(rule[3..], '`') == 0;
    assert rule[1..][1..] == rule[2..] && rule[2..][1..] == rule[3..];
    assert RunOf(rule, '`') == 3;
    assert FenceAfter(None, [rule]) == OpenerOf(rule);
    RerunSettles(None, rule, [], later);
  }

  /** Upgrades are path independent: installing `first` and then `second` gives the text that
      installing `second` directly gives, for every document that both are accepted on, exactly
      when `first` is a settled rule. */
  lemma UpgradesAgree(current: Option<string>, first: string, second: string,
                      earlierFirst: seq<string>, earlierSecond: seq<string>, later: seq<string>)
    requires Accepted(PlanRule(current, first, earlierFirst)) && Accepted(PlanRule(current, second, earlierSecond))
    ensures var middle := Some(Applied(current, PlanRule(current, first, earlierFirst)));
            var plan := PlanRule(middle, second, later);
            && (Accepted(plan) <==> Settled(first))
            && (Accepted(plan) ==> Applied(middle, plan) == Applied(current, PlanRule(current, second, earlierSecond)))
  {
    hide PlanRule, Around;
    PlanWraps(current, first, earlierFirst);
    PlanWraps(current, second, earlierSecond);
    Replan(Around(current).0, Around(current).1, first, second, later);
  }

  // ---------- the user's lines ----------

  /** Which lines are outside fences. */
  function Flags(open: Option<Fence>, lines: seq<string>): (flags: seq<bool>)
    ensures |flags| == |lines|
    decreases lines
  {
    if lines == [] then []
    else [open.None? && OpenerOf(lines[0]).None?] + Flags(StepFence(open, lines[0]), lines[1..])
  }

  lemma {:induction false} FlagsAppend(open: Option<Fence>, a: seq<string>, b: seq<string>)
    ensures Flags(open, a + b) == Flags(open, a) + Flags(FenceAfter(open, a), b)
    decreases a
  {
    if a == [] {
      assert a + b == b;
    } else {
      var next := StepFence(open, a[0]);
      FlagsAppend(next, a[1..], b);
      Assoc([open.None? && OpenerOf(a[0]).None?], Flags(next, a[1..]), Flags(FenceAfter(open, a), b));
      assert (a + b)[0] == a[0] && (a + b)[1..] == a[1..] + b;
    }
  }

  /** `after` is `before` with the lines between `pre` and `post` replaced by `block`. */
  ghost predicate Replaces(before: seq<string>, after: seq<string>, pre: seq<string>, block: seq<string>,
      post: seq<string>)
  {
    && |pre| + |post| < |before|
    && before[..|pre|] == pre && before[|before| - |post|..] == post
    && after == pre + block + post
  }

  /** Every line of `pre` and of `post` is inside a fence in `after` exactly if it was in `before`. */
  ghost predicate SameStatus(before: seq<string>, after: seq<string>, pre: seq<string>, post: seq<string>)
    requires |pre| + |post| <= |before| && |pre| + |post| <= |after|
  {
    && Flags(None, after)[..|pre|] == Flags(None, before)[..|pre|]
    && Flags(None, after)[|after| - |post|..] == Flags(None, before)[|before| - |post|..]
  }

  lemma StatusKept(before: seq<string>, after: seq<string>, pre: seq<string>, rule: string, post: seq<string>)
    requires Replaces(before, after, pre, Lines(Block(rule)), post) && Settled(rule)
    requires FenceAfter(None, pre) == None && FenceAfter(None, before[..|before| - |post|]) == None
    ensures SameStatus(before, after, pre, post)
  {
    hide FenceAfter, Flags, Lines;
    var block, mid := Lines(Block(rule)), before[|pre|..|before| - |post|];
    assert before == pre + mid + post && before[..|before| - |post|] == pre + mid;
    BlockFence(rule);
    FenceAppend(None, pre, block);
    FlagsAppend(None, pre, mid);
    FlagsAppend(None, pre + mid, post);
    FlagsAppend(None, pre, block);
    FlagsAppend(None, pre + block, post);
  }

  lemma BlockFence(rule: string)
    requires FenceAfter(None, Lines(rule)) == None
    ensures FenceAfter(None, Lines(Block(rule))) == None
  {
    BlockLines(rule);
    Markers();
    FenceAppend(None, [RULE_BEGIN] + Lines(rule), [RULE_END]);
    FenceAppend(None, [RULE_BEGIN], Lines(rule));
    assert FenceAfter(None, [RULE_BEGIN]) == None && FenceAfter(None, [RULE_END]) == None;
  }

  /** An update replaces what is between the markers, and nothing else. */
  lemma UpdateKeeps(text: string, rule: string, earlier: seq<string>)
    requires PlanRule(Some(text), rule, earlier).Update?
    ensures var (pre, post) := Around(Some(text));
            var before, after := Lines(text), Lines(PlanRule(Some(text), rule, earlier).text);
            && Replaces(before, after, pre, Lines(Block(rule)), post)
            && before[|pre|] == RULE_BEGIN && before[|before| - |post| - 1] == RULE_END
            && (Settled(rule) ==> SameStatus(before, after, pre, post))
  {
    hide Rows, FenceAfter, Filter, Lines, Join, Trim, Flags, Block, Mention, FenceOn, TrailingBlanks, IsHeading;
    hide Settled, Quiet;
    var lines := Lines(text);
    PlanWraps(Some(text), rule, earlier);
    ManagedWraps(text, rule);
    var (pre, post) := Around(Some(text));
    WrappedLines(pre, rule, post);
    assert lines[|lines| - |post|..] == post;
    if Settled(rule) { StatusKept(lines, pre + Lines(Block(rule)) + post, pre, rule, post); }
  }

  lemma {:induction false} BlanksFence(open: Option<Fence>, n: nat)
    ensures FenceAfter(open, Blanks(n)) == open
  {
    if n > 0 {
      assert Blanks(n)[1..] == Blanks(n - 1);
      BlanksFence(open, n - 1);
    }
  }

  lemma BlankTail(lines: seq<string>, start: nat, stop: nat)
    requires start <= stop <= |lines|
    ensures var n := TrailingBlanks(lines[start..stop]);
            && n <= stop - start && lines[stop - n..stop] == Blanks(n)
            && FenceAfter(None, lines[..stop - n]) == FenceAfter(None, lines[..stop])
  {
    hide TrailingBlanks, FenceAfter, Blanks;
    var n := TrailingBlanks(lines[start..stop]);
    var section := lines[start..stop];
    assert forall k :: stop - n <= k < stop ==> lines[k] == section[k - start];
    assert lines[stop - n..stop] == Blanks(n);
    assert lines[..stop] == lines[..stop - n] + Blanks(n);
    FenceAppend(None, lines[..stop - n], Blanks(n));
    BlanksFence(FenceAfter(None, lines[..stop - n]), n);
  }

  predicate AllBlank(lines: seq<string>)
  {
    forall k :: 0 <= k < |lines| ==> lines[k] == ""
  }

  /** No blank line at the very end is inside a fence that is never closed. */
  ghost predicate EndsOutside(before: seq<string>, post: seq<string>)
  {
    post == [] || !AllBlank(post) || FenceAfter(None, before) == None
  }

  /** A conversion replaces one section, from its heading up to the blank lines that end it. The
      lines that follow it keep their status if and only if none of them is a blank line at the very
      end inside a fence that the section leaves open. */
  lemma ConvertKeeps(text: string, rule: string, earlier: seq<string>)
    requires PlanRule(Some(text), rule, earlier).Convert?
    ensures var (pre, post) := Around(Some(text));
            var before, after := Lines(text), Lines(PlanRule(Some(text), rule, earlier).text);
            && Replaces(before, after, pre, Lines(Block(rule)), post)
            && IsHeading(before[|pre|])
            && (Settled(rule) ==> (SameStatus(before, after, pre, post) <==> EndsOutside(before, post)))
  {
    hide Rows, FenceAfter, Filter, Lines, Join, Trim, Flags, TrailingBlanks, IsHeading, Mention, FenceOn, Block;
    var lines := Lines(text);
    PlanWraps(Some(text), rule, earlier);
    UnmarkedWraps(text);
    var (pre, post) := Around(Some(text));
    WrappedLines(pre, rule, post);
    var start := Filter(Rows(None, lines, 0), LiveHeading)[0].index;
    SectionReplaced(lines, start, SectionEnd(Rows(None, lines, 0), start), rule);
  }

  /** A section that leaves a fence open, and a line feed at the end. */
  const OPEN_SECTION: seq<string> := ["## UniversalPeer", "```", ""]

  lemma OpenSectionHeading()
    ensures var line := OPEN_SECTION[0];
            IsHeading(line) && OpenerOf(line).None? && !Mention(line) && '\n' !in line
  {
    hide OpenerOf, Mention, Contains;
    var line := OPEN_SECTION[0];
    assert line[2..][0] == ' ' && line[2..][1..] == "UniversalPeer";
    assert TrimStart(line[2..]) == "UniversalPeer";
    OpenSectionPlain();
  }

  lemma OpenSectionPlain()
    ensures OpenerOf(OPEN_SECTION[0]).None? && !Mention(OPEN_SECTION[0])
  {
    var line := OPEN_SECTION[0];
    assert RunOf(line, ' ') == 0 && line[0..] == line;
  }

  lemma OpenSectionFence()
    ensures OpenerOf("```") == Some(Fence('`', 3)) && !Closes(Fence('`', 3), "")
    ensures !Mention("```") && !Mention("") && !IsSection("```")
  {
    var line := "```";
    assert RunOf(line, ' ') == 0 && line[0..] == line;
    assert line[1..][1..] == line[2..] && line[2..][1..] == line[3..] && RunOf(line[3..], '`') == 0;
    assert RunOf(line, '`') == 3;
  }

  lemma OpenSectionRows()
    ensures FenceAfter(None, OPEN_SECTION) == Some(Fence('`', 3))
    ensures Rows(None, OPEN_SECTION, 0) == [Row(OPEN_SECTION[0], 0, true), Row("```", 1, false), Row("", 2, false)]
  {
    hide OpenerOf, Closes;
    OpenSectionHeading();
    OpenSectionFence();
    var fence := Some(Fence('`', 3));
    assert OPEN_SECTION[1..] == ["```", ""] && ["```", ""][1..] == [""] && [""][1..] == [];
    assert FenceAfter(fence, [""]) == fence;
    assert FenceAfter(None, ["```", ""]) == fence;
    assert Rows(fence, [""], 2) == [Row("", 2, false)];
    assert Rows(None, ["```", ""], 1) == [Row("```", 1, false)] + Rows(fence, [""], 2);
  }

  lemma FilterThree(a: Row, b: Row, c: Row, p: Row -> bool)
    ensures Filter([a, b, c], p)
         == (if p(a) then [a] else []) + (if p(b) then [b] else []) + (if p(c) then [c] else [])
  {
    assert [a, b, c][1..] == [b, c] && [b, c][1..] == [c] && [c][1..] == [];
    assert Filter([c], p) == if p(c) then [c] else [];
  }

  lemma OpenSectionFilters()
    ensures var rows := Rows(None, OPEN_SECTION, 0);
            && Filter(rows, Mentioning) == [] && Filter(rows, LiveHeading) == [rows[0]] && SectionEnd(rows, 0) == 3
  {
    hide IsHeading, IsSection, Mention, Filter;
    OpenSectionHeading();
    OpenSectionFence();
    OpenSectionRows();
    var a, b, c := Row(OPEN_SECTION[0], 0, true), Row("```", 1, false), Row("", 2, false);
    FilterThree(a, b, c, Mentioning);
    FilterThree(a, b, c, LiveHeading);
    FilterThree(a, b, c, LiveSection);
    assert FirstAfter(Filter([a, b, c], LiveSection), 0) == None;
  }

  lemma OpenSectionText()
    ensures var text := Join(OPEN_SECTION, '\n');
            Lines(text) == OPEN_SECTION && Trim(text) != "" && TrailingBlanks(OPEN_SECTION) == 1
  {
    hide IsHeading, OpenerOf, Mention, Trim, Join, Split;
    OpenSectionHeading();
    SplitJoin(OPEN_SECTION, '\n');
    var text := Join(OPEN_SECTION, '\n');
    assert Front(OPEN_SECTION)[1] == "```";
    StartsWithHash();
    assert !IsSpace('#');
    if Trim(text) == "" { TrimBlank(text); }
  }

  lemma StartsWithHash()
    ensures Join(OPEN_SECTION, '\n') != "" && Join(OPEN_SECTION, '\n')[0] == '#'
  {
    hide Join;
    JoinStarts(OPEN_SECTION, '\n');
    assert OPEN_SECTION[0][0] == '#';
  }

  lemma JoinStarts(pieces: seq<string>, sep: char)
    requires pieces != [] && pieces[0] != ""
    ensures Join(pieces, sep) != "" && Join(pieces, sep)[0] == pieces[0][0]
  {
  }

  /** The other half: a shipped rule that left a fence open and was copied by hand is converted, and the blank
      line at the end, which was inside that fence, is outside any afterwards. */
  lemma ConversionOpensUp(rule: string)
    requires Settled(rule)
    ensures var text := Join(OPEN_SECTION, '\n');
            var plan, (pre, post) := PlanRule(Some(text), rule, [Trim(text)]), Around(Some(text));
            && plan.Convert? && Replaces(Lines(text), Lines(plan.text), pre, Lines(Block(rule)), post)
            && !SameStatus(Lines(text), Lines(plan.text), pre, post)
  {
    hide Rows, FenceAfter, Filter, Lines, Join, Trim, Flags, TrailingBlanks, SectionEnd, Block;
    var text := Join(OPEN_SECTION, '\n');
    OpenSectionText();
    OpenSectionFilters();
    OpenSectionRows();
    assert From(Before(OPEN_SECTION, 3), 0) == OPEN_SECTION && From(OPEN_SECTION, 3) == [];
    assert Trim(text) in [rule] + [Trim(text)];
    assert Around(Some(text)).1 == Blanks(1) + [];
    ConvertKeeps(text, rule, [Trim(text)]);
  }

  lemma SectionReplaced(lines: seq<string>, start: nat, stop: nat, rule: string)
    requires start < stop <= |lines| && IsHeading(lines[start])
    requires FenceAfter(None, lines[..start]) == None
    requires stop < |lines| ==> FenceAfter(None, lines[..stop]) == None
    ensures var pre, post := lines[..start], Blanks(TrailingBlanks(lines[start..stop])) + lines[stop..];
            var after := pre + Lines(Block(rule)) + post;
            && Replaces(lines, after, pre, Lines(Block(rule)), post)
            && (Settled(rule) ==> (SameStatus(lines, after, pre, post) <==> EndsOutside(lines, post)))
  {
    hide FenceAfter, Lines, Flags, TrailingBlanks, IsHeading, Block;
    BlankTail(lines, start, stop);
    HeadingNotBlank(lines[start]);
    var n := TrailingBlanks(lines[start..stop]);
    var pre, post := lines[..start], Blanks(n) + lines[stop..];
    assert lines[start..stop][0] == lines[start];
    assert n > 0 ==> lines[stop - n..stop][0] == "";
    assert n < stop - start;
    assert |post| == n + |lines| - stop;
    assert lines[stop - n..] == lines[stop - n..stop] + lines[stop..];
    var after := pre + Lines(Block(rule)) + post;
    if Settled(rule) {
      assert stop == |lines| ==> lines[..stop] == lines && lines[stop..] == [];
      if post == [] {
        FrontStatus(lines, after, pre);
      } else if FenceAfter(None, lines[..stop]) == None {
        StatusKept(lines, after, pre, rule, post);
        BlankEnd(lines, stop);
        assert AllBlank(post) ==> AllBlank(lines[stop..]) by { assert lines[stop..] == post[n..]; }
      } else {
        assert post == Blanks(n);
        OpenTail(lines, after, pre, rule, post);
      }
    }
  }

  lemma FrontStatus(before: seq<string>, after: seq<string>, pre: seq<string>)
    requires pre <= before && pre <= after
    ensures SameStatus(before, after, pre, [])
  {
    hide Flags, FenceAfter;
    assert before == pre + before[|pre|..] && after == pre + after[|pre|..];
    FlagsAppend(None, pre, before[|pre|..]);
    FlagsAppend(None, pre, after[|pre|..]);
  }

  lemma BlankLines(lines: seq<string>)
    requires AllBlank(lines)
    ensures lines == Blanks(|lines|)
  {
  }

  lemma BlankEnd(lines: seq<string>, stop: nat)
    requires stop <= |lines| && FenceAfter(None, lines[..stop]) == None
    ensures AllBlank(lines[stop..]) ==> FenceAfter(None, lines) == None
  {
    hide FenceAfter, Blanks;
    assert lines == lines[..stop] + lines[stop..];
    FenceAppend(None, lines[..stop], lines[stop..]);
    if AllBlank(lines[stop..]) {
      BlankLines(lines[stop..]);
      BlanksFence(None, |lines[stop..]|);
    }
  }

  /** Blank lines at the end that an unclosed fence had swallowed come out of it. */
  lemma OpenTail(before: seq<string>, after: seq<string>, pre: seq<string>, rule: string, post: seq<string>)
    requires Replaces(before, after, pre, Lines(Block(rule)), post) && Settled(rule) && FenceAfter(None, pre) == None
    requires post != [] && AllBlank(post) && FenceAfter(None, before[..|before| - |post|]) != None
    ensures !SameStatus(before, after, pre, post) && FenceAfter(None, before) != None
  {
    hide FenceAfter, Flags, Lines, Block, Blanks, OpenerOf;
    var block, mid := Lines(Block(rule)), before[..|before| - |post|];
    var open := FenceAfter(None, mid);
    assert before == mid + post && after == (pre + block) + post;
    BlankLines(post);
    BlanksFence(open, |post|);
    BlockFence(rule);
    FenceAppend(None, mid, post);
    FenceAppend(None, pre, block);
    FlagsAppend(None, mid, post);
    FlagsAppend(None, pre + block, post);
    FirstBlank(open, post);
    FirstBlank(None, post);
    assert Flags(None, before)[|before| - |post|] == Flags(open, post)[0];
    assert Flags(None, after)[|after| - |post|] == Flags(None, post)[0];
    assert Flags(None, after)[|after| - |post|..][0] != Flags(None, before)[|before| - |post|..][0];
  }

  lemma FirstBlank(open: Option<Fence>, lines: seq<string>)
    requires lines != [] && AllBlank(lines)
    ensures Flags(open, lines) != [] && (Flags(open, lines)[0] <==> open == None)
  {
    assert lines[0] == "";
    assert RunOf("", ' ') == 0 && FenceOn("") == None;
  }

  lemma HeadingNotBlank(line: string)
    requires IsHeading(line)
    ensures line != ""
  {
  }

  lemma {:induction false} RunGrows(s: string, w: string, c: char)
    requires c !in w || RunOf(s, c) < |s|
    ensures RunOf(s + w, c) == RunOf(s, c)
  {
    if s == "" {
      assert s + w == w;
    } else {
      assert (s + w)[0] == s[0] && (s + w)[1..] == s[1..] + w;
      if s[0] == c { RunGrows(s[1..], w, c); }
    }
  }

  /** White space after a line that ends in something else does not make a fence of it. */
  lemma OpenerWithoutTail(q: string, w: string)
    requires q != "" && !IsSpace(Last(q)) && forall k :: 0 <= k < |w| ==> IsSpace(w[k])
    requires OpenerOf(q + w).Some?
    ensures OpenerOf(q).Some?
  {
    hide FenceOn, RunOf;
    FenceWithoutTail(q, w);
    var info := FenceOn(q).value.1;
    assert forall k :: 0 <= k < |info| ==> info[k] == (info + w)[k];
  }

  /** White space at the end of a line only ends up in what follows the fence. */
  lemma FenceWithoutTail(q: string, w: string)
    requires q != "" && !IsSpace(Last(q)) && forall k :: 0 <= k < |w| ==> IsSpace(w[k])
    requires FenceOn(q + w).Some?
    ensures FenceOn(q).Some? && FenceOn(q + w).value == (FenceOn(q).value.0, FenceOn(q).value.1 + w)
  {
    hide RunOf;
    assert '`' !in w && '~' !in w;
    RunGrows(q, w, ' ');
    var indent := RunOf(q, ' ');
    assert (q + w)[indent..] == q[indent..] + w;
    var rest := q[indent..];
    RunGrows(rest, w, rest[0]);
    var n := RunOf(rest, rest[0]);
    assert (rest + w)[n..] == rest[n..] + w;
  }

  lemma {:induction false} FirstLineTail(q: string, w: string)
    requires '\n' !in q
    ensures exists n :: 0 <= n <= |w| && Lines(q + w)[0] == q + w[..n]
  {
    var i := IndexOf(w, '\n');
    if i < 0 {
      SplitPiece(q + w, '\n');
      assert w[..|w|] == w;
    } else {
      assert q + w == (q + w[..i]) + (['\n'] + w[i + 1..]);
      SplitFirst(q + w[..i], w[i + 1..], '\n');
    }
  }

  /** Appending keeps the document up to its trailing white space, and every kept line's status. */
  lemma AppendKeeps(text: string, rule: string, earlier: seq<string>)
    requires PlanRule(Some(text), rule, earlier).Append?
    ensures var after := PlanRule(Some(text), rule, earlier).text;
            var kept := Lines(TrimEnd(text));
            && TrimEnd(text) <= after
            && Lines(after) == kept + [""] + Lines(Block(rule)) + [""]
            && |kept| <= |Lines(text)|
            && Flags(None, Lines(after))[..|kept|] == Flags(None, Lines(text))[..|kept|]
  {
    hide Rows, FenceAfter, Filter, Lines, Join, Trim, Flags, TrimEnd;
    PlanWraps(Some(text), rule, earlier);
    var (pre, post) := Around(Some(text));
    WrappedLines(pre, rule, post);
    TrimmedLines(text);
    var kept := Lines(TrimEnd(text));
    var after := pre + Lines(Block(rule)) + post;
    FlagsAppend(None, kept, [""]);
    FlagsAppend(None, pre, Lines(Block(rule)));
    FlagsAppend(None, pre + Lines(Block(rule)), post);
    TrimmedFlags(text);
  }

  lemma TrimmedFlags(text: string)
    requires Trim(text) != "" && FenceAfter(None, Lines(TrimEnd(text)) + [""]) == None
    ensures var kept := Lines(TrimEnd(text));
            |kept| <= |Lines(text)| && Flags(None, kept) == Flags(None, Lines(text))[..|kept|]
  {
    hide TrimEnd, OpenerOf, Closes, Split;
    TrimmedLines(text);
    var kept, lines := Lines(TrimEnd(text)), Lines(text);
    var front, q := Front(kept), Last(kept);
    var open := FenceAfter(None, front);
    assert kept == front + [q];
    assert lines == front + lines[|kept| - 1..];
    FlagsAppend(None, front, [q]);
    FlagsAppend(None, front, lines[|kept| - 1..]);
    FenceAppend(None, front, [q]);
    FenceAppend(None, kept, [""]);
    BlanksFence(FenceAfter(None, kept), 1);
    assert Blanks(1) == [""];
    assert FenceAfter(open, [q]) == StepFence(open, q);
    if open.None? { LastLineOpener(text); }
    assert Flags(open, [q]) == [open.None? && OpenerOf(q).None?];
  }

  lemma LastLineOpener(text: string)
    requires Trim(text) != ""
    ensures var kept := Lines(TrimEnd(text));
            && |kept| <= |Lines(text)|
            && (OpenerOf(Last(kept)).None? ==> OpenerOf(Lines(text)[|kept| - 1]).None?)
  {
    hide OpenerOf, TrimEnd, Trim, Split;
    TrimmedLines(text);
    var trimmed := TrimEnd(text);
    var kept, q, w := Lines(trimmed), Last(Lines(trimmed)), text[|trimmed|..];
    assert text == trimmed + w;
    SplitAppend(trimmed, w, '\n');
    FirstLineTail(q, w);
    var n :| 0 <= n <= |w| && Lines(q + w)[0] == q + w[..n];
    TrimEndStops(text);
    LastLineEnd(trimmed);
    if OpenerOf(q + w[..n]).Some? { OpenerWithoutTail(q, w[..n]); }
  }

  lemma {:induction false} TrimEndStops(s: string)
    requires Trim(s) != ""
    ensures TrimEnd(s) != "" && !IsSpace(Last(TrimEnd(s)))
  {
    if TrimEnd(s) == "" {
      AllSpaceTrims(s);
      assert false;
    }
    TrimEndLast(s);
  }

  lemma {:induction false} TrimEndLast(s: string)
    ensures TrimEnd(s) == "" || !IsSpace(Last(TrimEnd(s)))
  {
    if s != [] && IsSpace(Last(s)) { TrimEndLast(Front(s)); }
  }

  lemma {:induction false} AllSpaceTrims(s: string)
    requires forall k :: 0 <= k < |s| ==> IsSpace(s[k])
    ensures Trim(s) == ""
  {
    if s != [] { AllSpaceTrims(s[1..]); }
  }

  /** The last line of a text that does not end in a line feed ends as the text does. */
  lemma {:induction false} LastLineEnd(s: string)
    requires s != "" && Last(s) != '\n'
    ensures Last(Lines(s)) != "" && Last(Last(Lines(s))) == Last(s)
  {
    if |s| == 1 {
      SplitPiece(s, '\n');
    } else {
      LastLineEnd(s[1..]);
    }
  }

  // ---------- an independent reading of the fences ----------

  function NextOpener(lines: seq<string>, i: nat): (o: nat)
    requires i <= |lines|
    ensures i <= o <= |lines|
    ensures o < |lines| ==> OpenerOf(lines[o]).Some?
    ensures forall k :: i <= k < o ==> OpenerOf(lines[k]).None?
    decreases |lines| - i
  {
    if i == |lines| || OpenerOf(lines[i]).Some? then i else NextOpener(lines, i + 1)
  }

  function NextCloser(fence: Fence, lines: seq<string>, i: nat): (c: nat)
    requires i <= |lines|
    ensures i <= c <= |lines|
    ensures c < |lines| ==> Closes(fence, lines[c])
    ensures forall k :: i <= k < c ==> !Closes(fence, lines[k])
    decreases |lines| - i
  {
    if i == |lines| || Closes(fence, lines[i]) then i else NextCloser(fence, lines, i + 1)
  }

  /** Line `k` is in one of the fenced code blocks from line `i` on: each runs from an opening
      fence to the first fence that closes it, or to the end of the document. */
  predicate Fenced(lines: seq<string>, i: nat, k: nat)
    requires i <= |lines|
    decreases |lines| - i
  {
    var o := NextOpener(lines, i);
    o < |lines| && o <= k < |lines| &&
    var c := NextCloser(OpenerOf(lines[o]).value, lines, o + 1);
    k <= c || Fenced(lines, c + 1, k)
  }

  /** A line is live exactly when it is in no fenced code block. */
  lemma {:induction false} LiveOutsideFences(lines: seq<string>, i: nat)
    requires i <= |lines| && FenceAfter(None, lines[..i]) == None
    ensures forall k :: i <= k < |lines| ==> (Rows(None, lines, 0)[k].live <==> !Fenced(lines, i, k))
    decreases |lines| - i
  {
    hide Closes, OpenerOf, Rows, FenceAfter;
    var o := NextOpener(lines, i);
    StillClosed(lines, i, o);
    if o < |lines| {
      var fence := OpenerOf(lines[o]).value;
      var c := NextCloser(fence, lines, o + 1);
      StillOpen(lines, o, c, fence);
      if c < |lines| {
        assert lines[..c + 1] == lines[..c] + [lines[c]];
        FenceAppend(None, lines[..c], [lines[c]]);
        OneFence(Some(fence), lines[c]);
        LiveAt(lines, c);
        LiveOutsideFences(lines, c + 1);
      }
    }
  }

  lemma NoLines()
    ensures FenceAfter(None, []) == None && Rows(None, [], 0) == []
  {
  }

  lemma OneFence(open: Option<Fence>, line: string)
    ensures FenceAfter(open, [line]) == StepFence(open, line)
  {
    hide StepFence;
    assert [line][1..] == [];
  }

  lemma LiveAt(lines: seq<string>, k: nat)
    requires k < |lines|
    ensures Rows(None, lines, 0)[k].live <==> FenceAfter(None, lines[..k]).None? && OpenerOf(lines[k]).None?
  {
    hide StepFence, OpenerOf, FenceAfter;
    RowsAppend(None, lines[..k], lines[k..], 0);
    assert lines == lines[..k] + lines[k..] && lines[k..][0] == lines[k];
    assert Rows(None, lines, 0)[k] == Rows(FenceAfter(None, lines[..k]), lines[k..], k)[0];
  }

  lemma {:induction false} StillClosed(lines: seq<string>, i: nat, o: nat)
    requires i <= o <= |lines| && FenceAfter(None, lines[..i]) == None
    requires forall k :: i <= k < o ==> OpenerOf(lines[k]).None?
    ensures FenceAfter(None, lines[..o]) == None
    ensures forall k :: i <= k < o ==> Rows(None, lines, 0)[k].live
    decreases o - i
  {
    hide OpenerOf, Closes;
    if i < o {
      assert lines[..i + 1] == lines[..i] + [lines[i]];
      FenceAppend(None, lines[..i], [lines[i]]);
      LiveAt(lines, i);
      StillClosed(lines, i + 1, o);
    }
  }

  lemma {:induction false} StillOpen(lines: seq<string>, o: nat, c: nat, fence: Fence)
    requires o < c <= |lines| && FenceAfter(None, lines[..o]) == None && OpenerOf(lines[o]) == Some(fence)
    requires forall k :: o < k < c ==> !Closes(fence, lines[k])
    ensures FenceAfter(None, lines[..c]) == Some(fence)
    ensures forall k :: o <= k < c ==> !Rows(None, lines, 0)[k].live
    decreases c - o
  {
    hide OpenerOf, Closes;
    assert lines[..c] == lines[..c - 1] + [lines[c - 1]];
    FenceAppend(None, lines[..c - 1], [lines[c - 1]]);
    LiveAt(lines, c - 1);
    if o < c - 1 { StillOpen(lines, o, c - 1, fence); }
  }
}
