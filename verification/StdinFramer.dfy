/** The newline framer on the MCP server's standard input (src/server.mjs): bytes arrive in
    chunks of any size, lines go out, and a line over the limit is answered with one error. */
module StdinFramer {
  import opened Sequences

  newtype Byte = b: int | 0 <= b < 256

  const LF: Byte := 10
  const MAX_STDIN_FRAME_BYTES: nat := 1024 * 1024

  datatype Event = Frame(line: seq<Byte>) | TooLarge

  datatype State = State(buffer: seq<Byte>, discarding: bool, out: seq<Event>)

  /** What one terminated line is answered with. `blank` tells the lines that trim to nothing. */
  function Answer(line: seq<Byte>, blank: seq<Byte> -> bool): seq<Event>
  {
    if |line| > MAX_STDIN_FRAME_BYTES then [TooLarge]
    else if blank(line) then []
    else [Frame(line)]
  }

  function Answers(lines: seq<seq<Byte>>, blank: seq<Byte> -> bool): seq<Event>
  {
    if lines == [] then [] else Answer(lines[0], blank) + Answers(lines[1..], blank)
  }

  /** The reference: the whole stream cut at its line feeds, with no notion of chunks. A last,
      unterminated line is kept while it is within the limit, and is in error as soon as it is not. */
  function Whole(stream: seq<Byte>, blank: seq<Byte> -> bool): State
  {
    var lines := Split(stream, LF);
    var tail := Last(lines);
    if |tail| > MAX_STDIN_FRAME_BYTES
    then State([], true, Answers(Front(lines), blank) + [TooLarge])
    else State(tail, false, Answers(Front(lines), blank))
  }

  class Framer {
    const blank: seq<Byte> -> bool
    var buffer: seq<Byte>
    var discarding: bool
    var out: seq<Event>
    ghost var stream: seq<Byte> // every byte received so far

    ghost predicate Valid()
      reads this
    {
      State(buffer, discarding, out) == Whole(stream, blank)
    }

    constructor (blank: seq<Byte> -> bool)
      ensures Valid() && stream == [] && this.blank == blank
    {
      this.blank := blank;
      buffer, discarding, out, stream := [], false, [], [];
    }

    /** The handler of one `data` event. */
    method Data(chunk: seq<Byte>)
      requires Valid()
      modifies this`buffer, this`discarding, this`out, this`stream
      ensures Valid() && stream == old(stream) + chunk
      ensures |buffer| <= MAX_STDIN_FRAME_BYTES
    {
      var incoming := chunk;
      ghost var done, tail := Front(Split(stream, LF)), Last(Split(stream, LF));
      ghost var received := stream + chunk;
      ChunkContinues(stream, chunk);
      if discarding {
        var newline := IndexOf(incoming, LF);
        if newline < 0 {
          StillDiscarding(stream, chunk, blank);
          stream := received;
          return;
        }
        DiscardEnds(received, done, tail, chunk, newline, blank);
        done := done + [tail + chunk[..newline]];
        discarding := false;
        incoming := incoming[newline + 1..];
        assert buffer + incoming == incoming;
      }
      assert CutAt(received, done, buffer + incoming);
      stream := received;
      buffer := buffer + incoming;
      done := Drain(received, done);
      NoMoreLines(received, done, buffer);
      if |buffer| > MAX_STDIN_FRAME_BYTES {
        buffer, discarding := [], true;
        out := out + [TooLarge];
      }
    }

    /** The inner loop: every complete line in the buffer is taken out of it and answered. */
    method Drain(ghost received: seq<Byte>, ghost before: seq<seq<Byte>>) returns (ghost done: seq<seq<Byte>>)
      requires CutAt(received, before, buffer) && out == Answers(before, blank)
      modifies this`buffer, this`out
      ensures CutAt(received, done, buffer) && out == Answers(done, blank)
      ensures LF !in buffer
    {
      done := before;
      while true
        invariant CutAt(received, done, buffer) && out == Answers(done, blank)
        decreases |buffer|
      {
        var newline := IndexOf(buffer, LF);
        if newline < 0 { break; }
        var frame := buffer[..newline];
        NextLine(received, done, buffer, newline, blank);
        done := done + [frame];
        buffer := buffer[newline + 1..];
        if |frame| > MAX_STDIN_FRAME_BYTES {
          out := out + [TooLarge];
        } else if !blank(frame) {
          out := out + [Frame(frame)];
        }
      }
    }
  }

  /** `done` are the first lines of `stream` and `rest` is what comes after them. */
  ghost predicate CutAt(stream: seq<Byte>, done: seq<seq<Byte>>, rest: seq<Byte>)
  {
    Split(stream, LF) == done + Split(rest, LF)
  }

  /** A chunk that arrives continues the unterminated line. */
  lemma ChunkContinues(stream: seq<Byte>, chunk: seq<Byte>)
    ensures CutAt(stream + chunk, Front(Split(stream, LF)), Last(Split(stream, LF)) + chunk)
    ensures LF !in Last(Split(stream, LF))
  {
    SplitAppend(stream, chunk, LF);
    SplitPiecesFree(stream, LF);
  }

  /** While an oversize line is being discarded, a chunk without a line feed changes nothing. */
  lemma StillDiscarding(stream: seq<Byte>, chunk: seq<Byte>, blank: seq<Byte> -> bool)
    requires Whole(stream, blank).discarding && LF !in chunk
    ensures Whole(stream + chunk, blank) == Whole(stream, blank)
  {
    ChunkContinues(stream, chunk);
    NoMoreLines(stream + chunk, Front(Split(stream, LF)), Last(Split(stream, LF)) + chunk);
  }

  /** The first line feed after an oversize line ends it; its error has been answered already. */
  lemma DiscardEnds(stream: seq<Byte>, done: seq<seq<Byte>>, tail: seq<Byte>, chunk: seq<Byte>, newline: nat,
                    blank: seq<Byte> -> bool)
    requires CutAt(stream, done, tail + chunk) && LF !in tail && |tail| > MAX_STDIN_FRAME_BYTES
    requires newline < |chunk| && chunk[newline] == LF && LF !in chunk[..newline]
    ensures CutAt(stream, done + [tail + chunk[..newline]], chunk[newline + 1..])
    ensures Answers(done + [tail + chunk[..newline]], blank) == Answers(done, blank) + [TooLarge]
  {
    var rest := tail + chunk;
    assert rest[..|tail| + newline] == tail + chunk[..newline];
    assert rest[|tail| + newline + 1..] == chunk[newline + 1..];
    NextLine(stream, done, rest, |tail| + newline, blank);
  }

  lemma NextLine(stream: seq<Byte>, done: seq<seq<Byte>>, rest: seq<Byte>, newline: nat, blank: seq<Byte> -> bool)
    requires CutAt(stream, done, rest) && newline < |rest| && rest[newline] == LF && LF !in rest[..newline]
    ensures CutAt(stream, done + [rest[..newline]], rest[newline + 1..])
    ensures Answers(done + [rest[..newline]], blank) == Answers(done, blank) + Answer(rest[..newline], blank)
  {
    var line := rest[..newline];
    assert rest == line + ([LF] + rest[newline + 1..]);
    SplitFirst(line, rest[newline + 1..], LF);
    AnswersAppend(done, [line], blank);
    assert Answers([line], blank) == Answer(line, blank) + [];
    assert (done + [line]) + Split(rest[newline + 1..], LF) == done + ([line] + Split(rest[newline + 1..], LF));
  }

  lemma NoMoreLines(stream: seq<Byte>, done: seq<seq<Byte>>, rest: seq<Byte>)
    requires CutAt(stream, done, rest) && LF !in rest
    ensures Front(Split(stream, LF)) == done && Last(Split(stream, LF)) == rest
  {
    SplitPiece(rest, LF);
  }

  lemma {:induction false} AnswersAppend(a: seq<seq<Byte>>, b: seq<seq<Byte>>, blank: seq<Byte> -> bool)
    ensures Answers(a + b, blank) == Answers(a, blank) + Answers(b, blank)
  {
    if a == [] {
      assert a + b == b;
    } else {
      assert (a + b)[1..] == a[1..] + b;
      AnswersAppend(a[1..], b, blank);
    }
  }

  /** However a stream is cut into chunks, the answers and the final state are those of the
      whole stream. */
  method FeedAll(chunks: seq<seq<Byte>>, blank: seq<Byte> -> bool) returns (result: State)
    ensures result == Whole(Flatten(chunks), blank)
    ensures |result.buffer| <= MAX_STDIN_FRAME_BYTES
  {
    var framer := new Framer(blank);
    for i := 0 to |chunks|
      invariant framer.Valid() && framer.blank == blank
      invariant framer.stream == Flatten(chunks[..i])
    {
      framer.Data(chunks[i]);
      FlattenSnoc(chunks[..i], chunks[i]);
      assert chunks[..i + 1] == chunks[..i] + [chunks[i]];
    }
    assert chunks[..|chunks|] == chunks;
    result := State(framer.buffer, framer.discarding, framer.out);
  }

  function Errors(events: seq<Event>): nat
  {
    if events == [] then 0 else (if events[0].TooLarge? then 1 else 0) + Errors(events[1..])
  }

  function Oversize(lines: seq<seq<Byte>>): nat
  {
    if lines == [] then 0 else (if |lines[0]| > MAX_STDIN_FRAME_BYTES then 1 else 0) + Oversize(lines[1..])
  }

  function Delivered(events: seq<Event>): seq<seq<Byte>>
  {
    if events == [] then []
    else (if events[0].Frame? then [events[0].line] else []) + Delivered(events[1..])
  }

  function Deliverable(lines: seq<seq<Byte>>, blank: seq<Byte> -> bool): seq<seq<Byte>>
  {
    if lines == [] then []
    else
      (if |lines[0]| <= MAX_STDIN_FRAME_BYTES && !blank(lines[0]) then [lines[0]] else [])
      + Deliverable(lines[1..], blank)
  }

  /** Exactly one error for each line over the limit, terminated or not; and exactly the
      terminated, non-blank lines within the limit are delivered, whole and in order. */
  lemma {:induction false} OneAnswerPerLine(stream: seq<Byte>, blank: seq<Byte> -> bool)
    ensures Errors(Whole(stream, blank).out) == Oversize(Split(stream, LF))
    ensures Delivered(Whole(stream, blank).out) == Deliverable(Front(Split(stream, LF)), blank)
  {
    var lines := Split(stream, LF);
    AnswersCounted(Front(lines), blank);
    OversizeAppend(Front(lines), [Last(lines)]);
    assert lines == Front(lines) + [Last(lines)];
    ErrorsAppend(Answers(Front(lines), blank), [TooLarge]);
  }

  lemma {:induction false} AnswersCounted(lines: seq<seq<Byte>>, blank: seq<Byte> -> bool)
    ensures Errors(Answers(lines, blank)) == Oversize(lines)
    ensures Delivered(Answers(lines, blank)) == Deliverable(lines, blank)
  {
    if lines != [] {
      AnswersCounted(lines[1..], blank);
      ErrorsAppend(Answer(lines[0], blank), Answers(lines[1..], blank));
    }
  }

  lemma {:induction false} ErrorsAppend(a: seq<Event>, b: seq<Event>)
    ensures Errors(a + b) == Errors(a) + Errors(b)
    ensures Delivered(a + b) == Delivered(a) + Delivered(b)
  {
    if a == [] {
      assert a + b == b;
    } else {
      assert (a + b)[1..] == a[1..] + b;
      ErrorsAppend(a[1..], b);
    }
  }

  lemma {:induction false} OversizeAppend(a: seq<seq<Byte>>, b: seq<seq<Byte>>)
    ensures Oversize(a + b) == Oversize(a) + Oversize(b)
  {
    if a == [] {
      assert a + b == b;
    } else {
      assert (a + b)[1..] == a[1..] + b;
      OversizeAppend(a[1..], b);
    }
  }
}
