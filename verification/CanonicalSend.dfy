/** The canonical form of a send (src/core/dedupe.mjs): the line that is hashed to tell a repeated
    send from a changed one. Strings are sequences of UTF-16 code units, as in JavaScript; the line
    is what `JSON.stringify` prints, read back by section 7 of RFC 8259. */
module CanonicalSend {
  import opened Sequences

  type Unit = u: int | 0 <= u < 0x1_0000

  type Text = seq<Unit>

  const MAX_BODY_BYTES: nat := 64 * 1024
  const QUOTE: Unit := 0x22
  const BACKSLASH: Unit := 0x5C

  const NULL: Text := [0x6E, 0x75, 0x6C, 0x6C]
  const COLON: Unit := 0x3A
  const COMMA: Unit := 0x2C
  const OPEN: Unit := 0x7B
  const CLOSE: Unit := 0x7D

  /** The code units of a text in ASCII. */
  function Units(s: string): Text
  {
    seq(|s|, i requires 0 <= i < |s| => if s[i] < '\U{80}' then s[i] as int else 0xFFFD)
  }

  // ---------- the printer ----------

  predicate IsLead(u: Unit)
  {
    0xD800 <= u <= 0xDBFF
  }

  predicate IsTrail(u: Unit)
  {
    0xDC00 <= u <= 0xDFFF
  }

  predicate IsPair(s: Text)
  {
    |s| > 1 && IsLead(s[0]) && IsTrail(s[1])
  }

  function HexDigit(d: int): Unit
    requires 0 <= d < 16
  {
    if d < 10 then 0x30 + d else 0x57 + d
  }

  function Hex4(u: Unit): Text
  {
    [HexDigit(u / 4096), HexDigit(u / 256 % 16), HexDigit(u / 16 % 16), HexDigit(u % 16)]
  }

  /** A code unit that is not half of a pair. A lone surrogate is escaped. */
  function EscapeUnit(u: Unit): Text
  {
    if u == QUOTE || u == BACKSLASH then [BACKSLASH, u]
    else if u == 0x08 then [BACKSLASH, 0x62]
    else if u == 0x09 then [BACKSLASH, 0x74]
    else if u == 0x0A then [BACKSLASH, 0x6E]
    else if u == 0x0C then [BACKSLASH, 0x66]
    else if u == 0x0D then [BACKSLASH, 0x72]
    else if u < 0x20 || IsLead(u) || IsTrail(u) then [BACKSLASH, 0x75] + Hex4(u)
    else [u]
  }

  function Escaped(s: Text): Text
  {
    if s == [] then []
    else if IsPair(s) then [s[0], s[1]] + Escaped(s[2..])
    else EscapeUnit(s[0]) + Escaped(s[1..])
  }

  function PrintString(s: Text): Text
  {
    [QUOTE] + Escaped(s) + [QUOTE]
  }

  /** A member of an object: its value is a string or `null`. */
  datatype Member = Member(name: Text, value: Option<Text>)

  function PrintValue(v: Option<Text>): Text
  {
    if v.None? then NULL else PrintString(v.value)
  }

  function PrintMember(m: Member): Text
  {
    PrintString(m.name) + [COLON] + PrintValue(m.value)
  }

  function PrintMembers(ms: seq<Member>): Text
    requires ms != []
  {
    if |ms| == 1 then PrintMember(ms[0]) + [CLOSE] else PrintMember(ms[0]) + [COMMA] + PrintMembers(ms[1..])
  }

  function PrintObject(ms: seq<Member>): Text
    requires ms != []
  {
    [OPEN] + PrintMembers(ms)
  }

  // ---------- the parser ----------

  function HexValue(u: Unit): Option<nat>
  {
    if 0x30 <= u <= 0x39 then Some(u - 0x30)
    else if 0x61 <= u <= 0x66 then Some(u - 0x57)
    else if 0x41 <= u <= 0x46 then Some(u - 0x37)
    else None
  }

  function Hex4Value(t: Text): Option<Unit>
    requires |t| >= 4
  {
    var a, b, c, d := HexValue(t[0]), HexValue(t[1]), HexValue(t[2]), HexValue(t[3]);
    if a.None? || b.None? || c.None? || d.None? then None
    else if a.value > 15 || b.value > 15 || c.value > 15 || d.value > 15 then None
    else Some(a.value * 4096 + b.value * 256 + c.value * 16 + d.value)
  }

  /** What follows a backslash: the code unit it stands for, and how much was read. */
  function ReadEscape(t: Text): (r: Option<(Unit, nat)>)
    ensures r.Some? ==> 0 < r.value.1 <= |t|
  {
    if t == [] then None
    else if t[0] == QUOTE || t[0] == BACKSLASH || t[0] == 0x2F then Some((t[0], 1))
    else if t[0] == 0x62 then Some((0x08, 1))
    else if t[0] == 0x66 then Some((0x0C, 1))
    else if t[0] == 0x6E then Some((0x0A, 1))
    else if t[0] == 0x72 then Some((0x0D, 1))
    else if t[0] == 0x74 then Some((0x09, 1))
    else if t[0] == 0x75 && |t| >= 5 then
      var u := Hex4Value(t[1..5]);
      if u.None? then None else Some((u.value, 5))
    else None
  }

  function Prepend(u: Unit, r: Option<(Text, Text)>): Option<(Text, Text)>
  {
    if r.None? then None else Some(([u] + r.value.0, r.value.1))
  }

  /** The characters up to the closing quotation mark, and what follows it. */
  function ReadChars(t: Text): (r: Option<(Text, Text)>)
    ensures r.Some? ==> |r.value.1| < |t|
    decreases |t|
  {
    if t == [] then None
    else if t[0] == QUOTE then Some(([], t[1..]))
    else if t[0] == BACKSLASH then
      var escape := ReadEscape(t[1..]);
      if escape.None? then None else Prepend(escape.value.0, ReadChars(t[1 + escape.value.1..]))
    else if t[0] < 0x20 then None
    else Prepend(t[0], ReadChars(t[1..]))
  }

  function ReadString(t: Text): (r: Option<(Text, Text)>)
    ensures r.Some? ==> |r.value.1| < |t|
  {
    if t == [] || t[0] != QUOTE then None else ReadChars(t[1..])
  }

  function ReadValue(t: Text): (r: Option<(Option<Text>, Text)>)
    ensures r.Some? ==> |r.value.1| < |t|
  {
    if NULL <= t then Some((None, t[4..]))
    else
      var s := ReadString(t);
      if s.None? then None else Some((Some(s.value.0), s.value.1))
  }

  function ReadMember(t: Text): (r: Option<(Member, Text)>)
    ensures r.Some? ==> |r.value.1| < |t|
  {
    var name := ReadString(t);
    if name.None? || name.value.1 == [] || name.value.1[0] != COLON then None
    else
      var v := ReadValue(name.value.1[1..]);
      if v.None? then None else Some((Member(name.value.0, v.value.0), v.value.1))
  }

  function ReadMembers(t: Text): Option<seq<Member>>
    decreases |t|
  {
    var m := ReadMember(t);
    if m.None? || m.value.1 == [] then None
    else if m.value.1 == [CLOSE] then Some([m.value.0])
    else if m.value.1[0] != COMMA then None
    else
      var rest := ReadMembers(m.value.1[1..]);
      if rest.None? then None else Some([m.value.0] + rest.value)
  }

  function ReadObject(t: Text): Option<seq<Member>>
  {
    if t == [] || t[0] != OPEN then None else ReadMembers(t[1..])
  }

  // ---------- what is printed is read back ----------

  lemma DigitBack(d: int)
    requires 0 <= d < 16
    ensures HexValue(HexDigit(d)) == Some(d)
  {
  }

  lemma Base16(u: Unit)
    ensures u / 4096 < 16
    ensures (u / 4096) * 4096 + (u / 256 % 16) * 256 + (u / 16 % 16) * 16 + u % 16 == u
  {
    assert u / 4096 == u / 256 / 16 && u / 256 == u / 16 / 16;
  }

  lemma HexBack(u: Unit)
    ensures |Hex4(u)| == 4 && Hex4Value(Hex4(u)) == Some(u)
  {
    hide HexDigit, HexValue;
    Base16(u);
    DigitBack(u / 4096);
    DigitBack(u / 256 % 16);
    DigitBack(u / 16 % 16);
    DigitBack(u % 16);
  }

  lemma ReadEscaped(u: Unit, tail: Text)
    ensures ReadChars(EscapeUnit(u) + tail) == Prepend(u, ReadChars(tail))
  {
    hide Hex4, Hex4Value;
    HexBack(u);
    var e := EscapeUnit(u);
    var t := e + tail;
    if e == [u] {
      assert t[1..] == tail;
    } else if |e| == 2 {
      assert t[0] == BACKSLASH && t[1..][0] == e[1] && t[2..] == tail;
      assert ReadEscape(t[1..]) == Some((u, 1));
    } else {
      assert e == [BACKSLASH, 0x75] + Hex4(u);
      assert t[1..] == [0x75] + (Hex4(u) + tail);
      assert t[1..][1..5] == Hex4(u);
      assert t[6..] == tail;
      assert ReadEscape(t[1..]) == Some((u, 5));
    }
  }

  lemma ReadPlain(u: Unit, tail: Text)
    requires u >= 0x20 && u != QUOTE && u != BACKSLASH
    ensures ReadChars([u] + tail) == Prepend(u, ReadChars(tail))
  {
    assert ([u] + tail)[1..] == tail;
  }

  lemma ReadEnd(rest: Text)
    ensures ReadChars([] + ([QUOTE] + rest)) == Some(([], rest))
  {
    var t := [] + ([QUOTE] + rest);
    assert t[0] == QUOTE && t[1..] == rest;
  }

  lemma {:induction false} CharsBack(s: Text, rest: Text)
    ensures ReadChars(Escaped(s) + ([QUOTE] + rest)) == Some((s, rest))
    decreases s
  {
    hide EscapeUnit, ReadChars;
    var end := [QUOTE] + rest;
    if s == [] {
      ReadEnd(rest);
    } else if IsPair(s) {
      CharsBack(s[2..], rest);
      var tail := Escaped(s[2..]) + end;
      ReadPlain(s[1], tail);
      ReadPlain(s[0], [s[1]] + tail);
      assert Escaped(s) + end == [s[0]] + ([s[1]] + tail);
      assert s == [s[0]] + ([s[1]] + s[2..]);
    } else {
      CharsBack(s[1..], rest);
      Assoc(EscapeUnit(s[0]), Escaped(s[1..]), end);
      ReadEscaped(s[0], Escaped(s[1..]) + end);
      assert s == [s[0]] + s[1..];
    }
  }

  /** Section 7 of RFC 8259: any sequence of code units, printed, is read back as itself. */
  lemma StringBack(s: Text, rest: Text)
    ensures ReadString(PrintString(s) + rest) == Some((s, rest))
  {
    CharsBack(s, rest);
    assert (PrintString(s) + rest)[1..] == Escaped(s) + ([QUOTE] + rest);
  }

  lemma ValueBack(v: Option<Text>, rest: Text)
    ensures ReadValue(PrintValue(v) + rest) == Some((v, rest))
  {
    hide Escaped, ReadChars;
    var t := PrintValue(v) + rest;
    if v.None? {
      assert t[4..] == rest && NULL <= t;
    } else {
      StringBack(v.value, rest);
      assert t[0] == QUOTE && NULL[0] != QUOTE;
      assert !(NULL <= t);
    }
  }

  lemma MemberBack(m: Member, rest: Text)
    ensures ReadMember(PrintMember(m) + rest) == Some((m, rest))
  {
    hide PrintString, ReadString, PrintValue, ReadValue;
    var after := [COLON] + (PrintValue(m.value) + rest);
    assert PrintMember(m) + rest == PrintString(m.name) + after;
    StringBack(m.name, after);
    assert after[0] == COLON && after[1..] == PrintValue(m.value) + rest;
    ValueBack(m.value, rest);
  }

  lemma LastMemberBack(m: Member)
    ensures ReadMembers(PrintMember(m) + [CLOSE]) == Some([m])
  {
    hide PrintMember, ReadMember;
    MemberBack(m, [CLOSE]);
  }

  lemma NextMemberBack(m: Member, rest: Text)
    ensures ReadMembers(PrintMember(m) + ([COMMA] + rest))
         == if ReadMembers(rest).None? then None else Some([m] + ReadMembers(rest).value)
  {
    hide PrintMember, ReadMember;
    var after := [COMMA] + rest;
    MemberBack(m, after);
    assert after[0] == COMMA && after[1..] == rest;
  }

  lemma {:induction false} MembersBack(ms: seq<Member>)
    requires ms != []
    ensures ReadMembers(PrintMembers(ms)) == Some(ms)
  {
    hide PrintMember, ReadMember, ReadMembers;
    if |ms| == 1 {
      LastMemberBack(ms[0]);
      assert ms == [ms[0]];
    } else {
      MembersBack(ms[1..]);
      NextMemberBack(ms[0], PrintMembers(ms[1..]));
      Assoc(PrintMember(ms[0]), [COMMA], PrintMembers(ms[1..]));
      assert ms == [ms[0]] + ms[1..];
    }
  }

  lemma ObjectBack(ms: seq<Member>)
    requires ms != []
    ensures ReadObject(PrintObject(ms)) == Some(ms)
  {
    assert PrintObject(ms)[0] == OPEN && PrintObject(ms)[1..] == PrintMembers(ms);
    MembersBack(ms);
  }

  // ---------- a send ----------

  /** A field as it arrives: a string, `null`, missing, or something else. */
  datatype Value = Str(text: Text) | Null | Missing | NotText

  datatype Send = Send(alias: Value, messageId: Value, threadId: Value, replyTo: Value, kind: Value, body: Value)

  datatype Error = AliasRequired | NotUuid(field: string) | InvalidKind | InvalidBody

  function Lower(u: Unit): Unit
  {
    if 0x41 <= u <= 0x5A then u + 0x20 else u
  }

  function Lowered(t: Text): Text
  {
    seq(|t|, i requires 0 <= i < |t| => Lower(t[i]))
  }

  predicate IsHexUnit(u: Unit)
  {
    0x30 <= u <= 0x39 || 0x61 <= u <= 0x66
  }

  /** `/^[0-9a-f]{8}-[0-9a-f]{4}-[1-8][0-9a-f]{3}-[89ab][0-9a-f]{3}-[0-9a-f]{12}$/`, letter case aside. */
  predicate IsUuid(t: Text)
  {
    && |t| == 36
    && (forall k :: 0 <= k < 36 ==> if k in {8, 13, 18, 23} then t[k] == 0x2D else IsHexUnit(Lower(t[k])))
    && 0x31 <= t[14] <= 0x38
    && Lower(t[19]) in {0x38, 0x39, 0x61, 0x62}
  }

  /** `/^[a-z][a-z0-9_-]{1,63}$/` */
  predicate IsKind(t: Text)
  {
    && 2 <= |t| <= 64 && 0x61 <= t[0] <= 0x7A
    && forall k :: 0 <= k < |t| ==> 0x61 <= t[k] <= 0x7A || 0x30 <= t[k] <= 0x39 || t[k] == 0x5F || t[k] == 0x2D
  }

  /** `Buffer.byteLength`: the UTF-8 length, with U+FFFD for a lone surrogate. */
  function ByteLength(s: Text): nat
  {
    if s == [] then 0
    else if IsPair(s) then 4 + ByteLength(s[2..])
    else (if s[0] < 0x80 then 1 else if s[0] < 0x800 then 2 else 3) + ByteLength(s[1..])
  }

  predicate IsBody(t: Text)
  {
    t != [] && ByteLength(t) <= MAX_BODY_BYTES && 0 !in t
  }

  predicate UuidField(v: Value)
  {
    v.Str? && IsUuid(v.text)
  }

  /** A missing `replyTo` is `null`. */
  predicate NoReply(v: Value)
  {
    v.Null? || v.Missing?
  }

  function Reply(v: Value): Option<Text>
  {
    if v.Str? then Some(Lowered(v.text)) else None
  }

  const NAMES: seq<Text> :=
      [Units("alias"), Units("messageId"), Units("threadId"), Units("replyTo"), Units("kind"), Units("body")]

  function Fields(alias: Text, messageId: Text, threadId: Text, replyTo: Option<Text>, kind: Text,
      body: Text): seq<Member>
  {
    [Member(NAMES[0], Some(alias)), Member(NAMES[1], Some(messageId)), Member(NAMES[2], Some(threadId)),
     Member(NAMES[3], replyTo), Member(NAMES[4], Some(kind)), Member(NAMES[5], Some(body))]
  }

  function Canonical(s: Send): Result<Text, Error>
  {
    if !s.alias.Str? then Err(AliasRequired)
    else if !UuidField(s.messageId) then Err(NotUuid("messageId"))
    else if !UuidField(s.threadId) then Err(NotUuid("threadId"))
    else if !NoReply(s.replyTo) && !UuidField(s.replyTo) then Err(NotUuid("replyTo"))
    else if !s.kind.Str? || !IsKind(s.kind.text) then Err(InvalidKind)
    else if !s.body.Str? || !IsBody(s.body.text) then Err(InvalidBody)
    else
      Ok(PrintObject(Fields(s.alias.text, Lowered(s.messageId.text), Lowered(s.threadId.text), Reply(s.replyTo),
          s.kind.text, s.body.text)))
  }

  /** The send a line of members stands for; in an object the last member of a name counts. */
  function Field(ms: seq<Member>, name: Text): Value
  {
    if ms == [] then Missing
    else if Last(ms).name == name then (if Last(ms).value.None? then Null else Str(Last(ms).value.value))
    else Field(Front(ms), name)
  }

  function SendOf(ms: seq<Member>): Send
  {
    Send(Field(ms, NAMES[0]), Field(ms, NAMES[1]), Field(ms, NAMES[2]), Field(ms, NAMES[3]), Field(ms, NAMES[4]),
        Field(ms, NAMES[5]))
  }

  /** The send with its three UUIDs in lower case and its `replyTo` filled in. */
  function LoweredSend(s: Send): Send
    requires s.messageId.Str? && s.threadId.Str?
  {
    Send(s.alias, Str(Lowered(s.messageId.text)), Str(Lowered(s.threadId.text)),
         if s.replyTo.Str? then Str(Lowered(s.replyTo.text)) else Null, s.kind, s.body)
  }

  lemma FieldNames()
    ensures forall i, j :: 0 <= i < j < 6 ==> NAMES[i] != NAMES[j]
  {
    assert NAMES[0][0] == 'a' as int && NAMES[1][0] == 'm' as int && NAMES[2][0] == 't' as int;
    assert NAMES[3][0] == 'r' as int && NAMES[4][0] == 'k' as int && NAMES[5][0] == 'b' as int;
  }

  lemma {:induction false} FieldAt(ms: seq<Member>, k: nat)
    requires k < |ms| && forall j :: k < j < |ms| ==> ms[j].name != ms[k].name
    ensures Field(ms, ms[k].name) == if ms[k].value.None? then Null else Str(ms[k].value.value)
  {
    if k < |ms| - 1 {
      assert Last(ms) == ms[|ms| - 1] && Front(ms)[k] == ms[k];
      FieldAt(Front(ms), k);
    }
  }

  lemma SendOfFields(alias: Text, messageId: Text, threadId: Text, replyTo: Option<Text>, kind: Text, body: Text)
    ensures SendOf(Fields(alias, messageId, threadId, replyTo, kind, body))
         == Send(Str(alias), Str(messageId), Str(threadId),
                 if replyTo.None? then Null else Str(replyTo.value), Str(kind), Str(body))
  {
    hide Units, Field;
    var ms := Fields(alias, messageId, threadId, replyTo, kind, body);
    FieldNames();
    assert forall j :: 0 <= j < 6 ==> ms[j].name == NAMES[j];
    FieldAt(ms, 0);
    FieldAt(ms, 1);
    FieldAt(ms, 2);
    FieldAt(ms, 3);
    FieldAt(ms, 4);
    FieldAt(ms, 5);
  }

  lemma LoweredTwice(t: Text)
    ensures Lowered(Lowered(t)) == Lowered(t)
  {
  }

  lemma LoweredUuid(t: Text)
    requires IsUuid(t)
    ensures IsUuid(Lowered(t))
  {
    assert forall k :: 0 <= k < 36 ==> Lowered(t)[k] == Lower(t[k]);
    assert t[14] == Lower(t[14]) && Lower(Lower(t[19])) == Lower(t[19]);
  }

  /** A canonical line is a JSON object that reads back as the send it came from, UUIDs in lower
      case; and canonicalising what was read gives the line again. */
  lemma Reread(s: Send)
    requires Canonical(s).Ok?
    ensures ReadObject(Canonical(s).value).Some?
    ensures SendOf(ReadObject(Canonical(s).value).value) == LoweredSend(s)
    ensures Canonical(SendOf(ReadObject(Canonical(s).value).value)) == Canonical(s)
  {
    hide ReadObject, PrintObject, SendOf, Fields, IsUuid, IsKind, IsBody, Lowered;
    var fields := Fields(s.alias.text, Lowered(s.messageId.text), Lowered(s.threadId.text), Reply(s.replyTo),
        s.kind.text, s.body.text);
    FieldsThere(s.alias.text, Lowered(s.messageId.text), Lowered(s.threadId.text), Reply(s.replyTo), s.kind.text,
        s.body.text);
    ObjectBack(fields);
    SendOfFields(s.alias.text, Lowered(s.messageId.text), Lowered(s.threadId.text), Reply(s.replyTo), s.kind.text,
        s.body.text);
    LoweredUuid(s.messageId.text);
    LoweredUuid(s.threadId.text);
    LoweredTwice(s.messageId.text);
    LoweredTwice(s.threadId.text);
    if s.replyTo.Str? {
      LoweredUuid(s.replyTo.text);
      LoweredTwice(s.replyTo.text);
    }
  }

  lemma FieldsThere(alias: Text, messageId: Text, threadId: Text, replyTo: Option<Text>, kind: Text, body: Text)
    ensures Fields(alias, messageId, threadId, replyTo, kind, body) != []
  {
  }

  predicate SameButCase(a: Value, b: Value)
  {
    (NoReply(a) && NoReply(b)) || (a.Str? && b.Str? && Lowered(a.text) == Lowered(b.text))
  }

  /** Two valid sends have the same line if and only if they agree on every field, up to letter case
      in the three UUIDs. */
  lemma SameLineIff(a: Send, b: Send)
    requires Canonical(a).Ok? && Canonical(b).Ok?
    ensures Canonical(a) == Canonical(b) <==>
            (&& a.alias == b.alias && a.kind == b.kind && a.body == b.body
             && SameButCase(a.messageId, b.messageId) && SameButCase(a.threadId, b.threadId)
                && SameButCase(a.replyTo, b.replyTo))
  {
    hide ReadObject, PrintObject, SendOf, Fields, IsUuid, IsKind, IsBody, Lowered;
    Reread(a);
    Reread(b);
  }

  // ---------- the line as bytes ----------

  /** No surrogate without its other half, so that UTF-8 loses nothing. */
  predicate PairedUp(t: Text)
  {
    if t == [] then true
    else if IsLead(t[0]) then |t| > 1 && IsTrail(t[1]) && PairedUp(t[2..])
    else !IsTrail(t[0]) && PairedUp(t[1..])
  }

  predicate Clean(t: Text)
  {
    PairedUp(t) && forall k :: 0 <= k < |t| ==> t[k] >= 0x20
  }

  lemma {:induction false} PairedAppend(a: Text, b: Text)
    requires PairedUp(a) && PairedUp(b)
    ensures PairedUp(a + b)
    decreases a
  {
    if a == [] {
      assert a + b == b;
    } else if IsLead(a[0]) {
      PairedAppend(a[2..], b);
      assert (a + b)[2..] == a[2..] + b;
    } else {
      PairedAppend(a[1..], b);
      assert (a + b)[1..] == a[1..] + b;
    }
  }

  lemma {:induction false} PlainPaired(t: Text)
    requires forall k :: 0 <= k < |t| ==> !IsLead(t[k]) && !IsTrail(t[k])
    ensures PairedUp(t)
  {
    if t != [] { PlainPaired(t[1..]); }
  }

  lemma CleanAppend(a: Text, b: Text)
    requires Clean(a) && Clean(b)
    ensures Clean(a + b)
  {
    PairedAppend(a, b);
  }

  lemma CleanEscape(u: Unit)
    ensures Clean(EscapeUnit(u))
  {
    PlainPaired(EscapeUnit(u));
  }

  lemma {:induction false} CleanEscaped(s: Text)
    ensures Clean(Escaped(s))
    decreases s
  {
    hide EscapeUnit;
    if s != [] {
      if IsPair(s) {
        CleanEscaped(s[2..]);
        var t := Escaped(s);
        assert t[2..] == Escaped(s[2..]);
        assert forall k :: 2 <= k < |t| ==> t[k] == t[2..][k - 2];
      } else {
        CleanEscaped(s[1..]);
        CleanEscape(s[0]);
        CleanAppend(EscapeUnit(s[0]), Escaped(s[1..]));
      }
    }
  }

  lemma CleanMarks()
    ensures Clean([QUOTE]) && Clean([COLON]) && Clean([COMMA]) && Clean([OPEN]) && Clean([CLOSE]) && Clean(NULL)
  {
    PlainPaired(NULL);
  }

  lemma CleanString(s: Text)
    ensures Clean(PrintString(s))
  {
    hide Escaped;
    CleanEscaped(s);
    CleanMarks();
    CleanAppend([QUOTE], Escaped(s));
    CleanAppend([QUOTE] + Escaped(s), [QUOTE]);
  }

  lemma CleanMember(m: Member)
    ensures Clean(PrintMember(m))
  {
    hide Clean, PrintString;
    CleanMarks();
    CleanString(m.name);
    if m.value.Some? { CleanString(m.value.value); }
    CleanAppend(PrintString(m.name), [COLON]);
    CleanAppend(PrintString(m.name) + [COLON], PrintValue(m.value));
  }

  lemma {:induction false} CleanMembers(ms: seq<Member>)
    requires ms != []
    ensures Clean(PrintMembers(ms))
  {
    hide Clean, PrintMember;
    CleanMarks();
    CleanMember(ms[0]);
    if |ms| == 1 {
      CleanAppend(PrintMember(ms[0]), [CLOSE]);
    } else {
      CleanMembers(ms[1..]);
      CleanAppend(PrintMember(ms[0]), [COMMA]);
      CleanAppend(PrintMember(ms[0]) + [COMMA], PrintMembers(ms[1..]));
    }
  }

  /** A canonical line is one line without control characters, and well-formed UTF-16 even when the
      alias or the body is not. */
  lemma LineIsClean(s: Send)
    requires Canonical(s).Ok?
    ensures Clean(Canonical(s).value)
  {
    hide Clean, PrintMembers;
    CleanMarks();
    var fields := Fields(s.alias.text, Lowered(s.messageId.text), Lowered(s.threadId.text), Reply(s.replyTo),
        s.kind.text, s.body.text);
    CleanMembers(fields);
    CleanAppend([OPEN], PrintMembers(fields));
  }

  type Byte = b: int | 0 <= b < 256

  /** The code point of a surrogate pair. */
  function CodePoint(lead: Unit, trail: Unit): (p: int)
    requires IsLead(lead) && IsTrail(trail)
    ensures 0x1_0000 <= p < 0x11_0000
  {
    0x1_0000 + (lead - 0xD800) * 1024 + (trail - 0xDC00)
  }

  /** The UTF-8 bytes of a text, as `Buffer` and the hash take them: U+FFFD for a lone surrogate. */
  function Utf8(t: Text): seq<Byte>
  {
    if t == [] then []
    else if IsPair(t) then FourBytes(CodePoint(t[0], t[1])) + Utf8(t[2..])
    else UnitBytes(t[0]) + Utf8(t[1..])
  }

  function FourBytes(p: int): seq<Byte>
    requires 0x1_0000 <= p < 0x11_0000
  {
    [0xF0 + p / 0x4_0000, 0x80 + p / 4096 % 64, 0x80 + p / 64 % 64, 0x80 + p % 64]
  }

  function UnitBytes(u: Unit): seq<Byte>
  {
    if u < 0x80 then [u]
    else if u < 0x800 then [0xC0 + u / 64, 0x80 + u % 64]
    else if IsLead(u) || IsTrail(u) then [0xEF, 0xBF, 0xBD]
    else [0xE0 + u / 4096, 0x80 + u / 64 % 64, 0x80 + u % 64]
  }

  /** The limit on the body is on these bytes. */
  lemma {:induction false} ByteLengthIs(t: Text)
    ensures |Utf8(t)| == ByteLength(t)
    decreases t
  {
    if t != [] {
      ByteLengthIs(if IsPair(t) then t[2..] else t[1..]);
    }
  }

  function Tail(b: Byte, mark: int): int
  {
    b - mark
  }

  /** What the first bytes stand for, and how many they are. */
  function ReadUtf8(b: seq<Byte>): (Text, nat)
  {
    if b == [] then ([], 0)
    else if b[0] < 0x80 then ([b[0]], 1)
    else if 0xC0 <= b[0] < 0xE0 && |b| > 1 then ([(Tail(b[0], 0xC0) * 64 + Tail(b[1], 0x80)) % 0x1_0000], 2)
    else if 0xE0 <= b[0] < 0xF0 && |b| > 2 then
      ([(Tail(b[0], 0xE0) * 4096 + Tail(b[1], 0x80) * 64 + Tail(b[2], 0x80)) % 0x1_0000], 3)
    else if 0xF0 <= b[0] && |b| > 3 then
      var p := Tail(b[0], 0xF0) * 0x4_0000 + Tail(b[1], 0x80) * 4096 + Tail(b[2], 0x80) * 64
          + Tail(b[3], 0x80) - 0x1_0000;
      ([0xD800 + p / 1024 % 1024, 0xDC00 + p % 1024], 4)
    else ([], 1)
  }

  lemma FourBytesBack(lead: Unit, trail: Unit, rest: seq<Byte>)
    requires IsLead(lead) && IsTrail(trail)
    ensures ReadUtf8(FourBytes(CodePoint(lead, trail)) + rest) == ([lead, trail], 4)
  {
    var p, q := CodePoint(lead, trail), (lead - 0xD800) * 1024 + (trail - 0xDC00);
    Base64(p);
    var b := FourBytes(p) + rest;
    assert b[0] == 0xF0 + p / 0x4_0000 && b[1] == 0x80 + p / 4096 % 64 && b[2] == 0x80 + p / 64 % 64
        && b[3] == 0x80 + p % 64;
    assert p - 0x1_0000 == q;
    assert q / 1024 == lead - 0xD800 && q % 1024 == trail - 0xDC00;
  }

  lemma Base64(p: nat)
    ensures (p / 0x4_0000) * 0x4_0000 + (p / 4096 % 64) * 4096 + (p / 64 % 64) * 64 + p % 64 == p
    ensures p < 0x4_0000 ==> p / 4096 == p / 4096 % 64
  {
    assert p / 4096 == p / 64 / 64 && p / 0x4_0000 == p / 4096 / 64;
  }

  lemma UnitBytesBack(u: Unit, rest: seq<Byte>)
    requires !IsLead(u) && !IsTrail(u)
    ensures ReadUtf8(UnitBytes(u) + rest) == ([u], |UnitBytes(u)|)
  {
    Base64(u);
    var b, e := UnitBytes(u) + rest, UnitBytes(u);
    assert forall k :: 0 <= k < |e| ==> b[k] == e[k];
  }

  /** On well-formed UTF-16 the bytes lose nothing. */
  lemma {:induction false} Utf8Injective(a: Text, b: Text)
    requires PairedUp(a) && PairedUp(b) && Utf8(a) == Utf8(b)
    ensures a == b
    decreases a
  {
    hide ReadUtf8, Utf8;
    NoBytes(a);
    NoBytes(b);
    if a != [] && b != [] {
      var x := FirstChar(a);
      var y := FirstChar(b);
      assert x == y;
      Utf8Injective(a[x..], b[y..]);
      assert a == a[..x] + a[x..] && b == b[..y] + b[y..];
    }
  }

  lemma NoBytes(t: Text)
    ensures Utf8(t) == [] <==> t == []
  {
  }

  /** The first character of a well-formed text is read back from its bytes. */
  lemma FirstChar(t: Text) returns (n: nat)
    requires PairedUp(t) && t != []
    ensures 0 < n <= |t| && PairedUp(t[n..])
    ensures ReadUtf8(Utf8(t)).0 == t[..n] && ReadUtf8(Utf8(t)).1 <= |Utf8(t)|
    ensures Utf8(t)[ReadUtf8(Utf8(t)).1..] == Utf8(t[n..])
  {
    hide ReadUtf8, UnitBytes, FourBytes;
    if IsPair(t) {
      n := 2;
      var bytes := FourBytes(CodePoint(t[0], t[1]));
      FourBytesBack(t[0], t[1], Utf8(t[2..]));
      assert |bytes| == 4 by { FourLong(CodePoint(t[0], t[1])); }
      assert (bytes + Utf8(t[2..]))[4..] == Utf8(t[2..]) && t[..2] == [t[0], t[1]];
    } else {
      n := 1;
      var bytes := UnitBytes(t[0]);
      UnitBytesBack(t[0], Utf8(t[1..]));
      assert (bytes + Utf8(t[1..]))[|bytes|..] == Utf8(t[1..]) && t[..1] == [t[0]];
    }
  }

  lemma FourLong(p: int)
    requires 0x1_0000 <= p < 0x11_0000
    ensures |FourBytes(p)| == 4
  {
  }

  /** So the bytes that are hashed are the same if and only if the lines are: a lone surrogate, which
      UTF-8 cannot tell from any other, never reaches them. */
  lemma SameBytesIff(a: Send, b: Send)
    requires Canonical(a).Ok? && Canonical(b).Ok?
    ensures Utf8(Canonical(a).value) == Utf8(Canonical(b).value) <==> Canonical(a) == Canonical(b)
  {
    hide Canonical, Utf8;
    LineIsClean(a);
    LineIsClean(b);
    if Utf8(Canonical(a).value) == Utf8(Canonical(b).value) {
      Utf8Injective(Canonical(a).value, Canonical(b).value);
    }
  }

  // ---------- what is refused ----------

  /** Up to and with the fields before it, a send is in order. */
  predicate OrderedUpTo(s: Send, field: nat)
  {
    && (field > 0 ==> s.alias.Str?)
    && (field > 1 ==> UuidField(s.messageId))
    && (field > 2 ==> UuidField(s.threadId))
    && (field > 3 ==> NoReply(s.replyTo) || UuidField(s.replyTo))
    && (field > 4 ==> s.kind.Str? && IsKind(s.kind.text))
  }

  /** A send has a line if and only if all of it is in order: its body is a text of one byte at least and 64 KiB
      at most as it is sent, without a zero. Otherwise the first field that is not is named. */
  lemma RefusedBecause(s: Send)
    ensures var fine := s.body.Str? && 1 <= |Utf8(s.body.text)| <= 65536 && 0 !in s.body.text;
            && (Canonical(s).Ok? <==> OrderedUpTo(s, 5) && fine)
            && (Canonical(s) == Err(AliasRequired) <==> !OrderedUpTo(s, 1))
            && (Canonical(s) == Err(NotUuid("messageId")) <==> OrderedUpTo(s, 1) && !OrderedUpTo(s, 2))
            && (Canonical(s) == Err(NotUuid("threadId")) <==> OrderedUpTo(s, 2) && !OrderedUpTo(s, 3))
            && (Canonical(s) == Err(NotUuid("replyTo")) <==> OrderedUpTo(s, 3) && !OrderedUpTo(s, 4))
            && (Canonical(s) == Err(InvalidKind) <==> OrderedUpTo(s, 4) && !OrderedUpTo(s, 5))
            && (Canonical(s) == Err(InvalidBody) <==> OrderedUpTo(s, 5) && !fine)
  {
    hide Utf8, IsUuid, IsKind, PrintObject, Fields;
    assert "messageId"[0] == 'm' && "threadId"[0] == 't' && "replyTo"[0] == 'r';
    if s.body.Str? {
      ByteLengthIs(s.body.text);
      BytesOfNothing(s.body.text);
    }
  }

  lemma BytesOfNothing(t: Text)
    ensures ByteLength(t) == 0 <==> t == []
  {
  }

  // ---------- the line character by character ----------

  /** The escapes as QuoteJSONString of ECMA-262 has them: seven characters have a short one; other control characters
      and lone surrogates are four lower-case hexadecimal digits; everything else stands for itself. */
  lemma EscapesAre(u: Unit)
    ensures EscapeUnit(0x08) == Units("\\b") && EscapeUnit(0x09) == Units("\\t") && EscapeUnit(0x0A) == Units("\\n")
    ensures EscapeUnit(0x0C) == Units("\\f") && EscapeUnit(0x0D) == Units("\\r")
    ensures EscapeUnit(0x22) == Units("\\\"") && EscapeUnit(0x5C) == Units("\\\\")
    ensures u !in {0x08, 0x09, 0x0A, 0x0C, 0x0D, 0x22, 0x5C} ==>
              var text := EscapeUnit(u);
              if u < 0x20 || 0xD800 <= u <= 0xDFFF then
                && |text| == 6 && text[..2] == Units("\\u") && Hex4Value(text[2..]) == Some(u)
                && forall k :: 2 <= k < 6 ==> IsHexUnit(text[k])
              else text == [u]
  {
    hide Hex4;
    if u < 0x20 || 0xD800 <= u <= 0xDFFF { HexOf(u); }
  }

  lemma HexOf(u: Unit)
    ensures |Hex4(u)| == 4 && Hex4Value(Hex4(u)) == Some(u) && forall k :: 0 <= k < 4 ==> IsHexUnit(Hex4(u)[k])
  {
    HexBack(u);
  }

  /** In quotes, as it is. */
  function Quoted(t: Text): Text
  {
    [QUOTE] + t + [QUOTE]
  }

  /** A text without quote, backslash, control character or surrogate. */
  predicate Harmless(t: Text)
  {
    forall k :: 0 <= k < |t| ==> t[k] >= 0x20 && t[k] != QUOTE && t[k] != BACKSLASH && !IsLead(t[k]) && !IsTrail(t[k])
  }

  lemma {:induction false} HarmlessEscaped(t: Text)
    requires Harmless(t)
    ensures Escaped(t) == t
  {
    if t != [] {
      HarmlessEscaped(t[1..]);
      assert t == [t[0]] + t[1..];
    }
  }

  lemma UuidHarmless(t: Text)
    requires IsUuid(t)
    ensures Harmless(Lowered(t))
  {
    forall k | 0 <= k < 36 ensures 0x2D <= Lowered(t)[k] <= 0x66 && Lowered(t)[k] != BACKSLASH {
      assert if k in {8, 13, 18, 23} then t[k] == 0x2D else IsHexUnit(Lower(t[k]));
    }
  }

  lemma KindHarmless(t: Text)
    requires IsKind(t)
    ensures Harmless(t)
  {
  }

  lemma NamesHarmless()
    ensures forall k :: 0 <= k < 6 ==> Harmless(NAMES[k])
  {
    forall k | 0 <= k < 6 ensures Harmless(NAMES[k]) {
      LettersHarmless(["alias", "messageId", "threadId", "replyTo", "kind", "body"][k]);
    }
  }

  lemma LettersHarmless(s: string)
    requires forall k :: 0 <= k < |s| ==> 'a' <= s[k] <= 'z' || 'A' <= s[k] <= 'Z'
    ensures Harmless(Units(s))
  {
    forall k | 0 <= k < |s| ensures 0x41 <= Units(s)[k] <= 0x7A && Units(s)[k] != BACKSLASH {
      assert Units(s)[k] == s[k] as int;
    }
  }

  /** The text between the values of a line. */
  function Key(name: Text): Text
  {
    Quoted(name) + [COLON]
  }

  /** A canonical line from its first character to its last: the six fields in this order, without a blank, the
      UUIDs in lower case. Only the alias and the body can need an escape. */
  lemma LineIs(s: Send)
    requires Canonical(s).Ok?
    ensures var reply := if s.replyTo.Str? then Quoted(Lowered(s.replyTo.text)) else Units("null");
            Canonical(s).value ==
            [OPEN] + (Key(Units("alias")) + PrintString(s.alias.text) + [COMMA]
              + (Key(Units("messageId")) + Quoted(Lowered(s.messageId.text)) + [COMMA]
              + (Key(Units("threadId")) + Quoted(Lowered(s.threadId.text)) + [COMMA]
              + (Key(Units("replyTo")) + reply + [COMMA]
              + (Key(Units("kind")) + Quoted(s.kind.text) + [COMMA]
              + (Key(Units("body")) + PrintString(s.body.text) + [CLOSE]))))))
  {
    hide Units, IsUuid, IsKind, IsBody, Lowered, Escaped;
    var fields := Fields(s.alias.text, Lowered(s.messageId.text), Lowered(s.threadId.text), Reply(s.replyTo),
                         s.kind.text, s.body.text);
    NamesHarmless();
    forall k | 0 <= k < 6 ensures PrintString(NAMES[k]) == Quoted(NAMES[k]) { HarmlessEscaped(NAMES[k]); }
    UuidHarmless(s.messageId.text);
    HarmlessEscaped(Lowered(s.messageId.text));
    UuidHarmless(s.threadId.text);
    HarmlessEscaped(Lowered(s.threadId.text));
    if s.replyTo.Str? {
      UuidHarmless(s.replyTo.text);
      HarmlessEscaped(Lowered(s.replyTo.text));
    }
    KindHarmless(s.kind.text);
    HarmlessEscaped(s.kind.text);
    NullIs();
    SixMembers(fields);
  }

  lemma NullIs()
    ensures NULL == Units("null")
  {
  }

  lemma SixMembers(ms: seq<Member>)
    requires |ms| == 6
    ensures PrintObject(ms) ==
            [OPEN] + (PrintMember(ms[0]) + [COMMA] + (PrintMember(ms[1]) + [COMMA] + (PrintMember(ms[2]) + [COMMA]
              + (PrintMember(ms[3]) + [COMMA] + (PrintMember(ms[4]) + [COMMA] + (PrintMember(ms[5]) + [CLOSE]))))))
  {
    hide PrintMember;
    assert ms[1..][1..] == ms[2..] && ms[2..][1..] == ms[3..] && ms[3..][1..] == ms[4..] && ms[4..][1..] == ms[5..];
    assert PrintMembers(ms[5..]) == PrintMember(ms[5]) + [CLOSE];
    assert PrintMembers(ms[4..]) == PrintMember(ms[4]) + [COMMA] + PrintMembers(ms[5..]);
    assert PrintMembers(ms[3..]) == PrintMember(ms[3]) + [COMMA] + PrintMembers(ms[4..]);
    assert PrintMembers(ms[2..]) == PrintMember(ms[2]) + [COMMA] + PrintMembers(ms[3..]);
    assert PrintMembers(ms[1..]) == PrintMember(ms[1]) + [COMMA] + PrintMembers(ms[2..]);
  }
}
