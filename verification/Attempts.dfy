/** Attempts recorded in the ledger (src/core/attempts.mjs): an intent before a send, its outcome
    after. What comes in is JSON, so a value need not be a string where one is expected. */
module Attempts {
  import opened Sequences
  import opened JsText

  /** What a number or a boolean gives as a string: never a UUID. */
  type PlainText = s: string | !IsLowerUuid(s) witness ""

  /** A value as JavaScript sees it. Equality of these is `===`: an object or array is only equal to
      itself, and `shown` is what it gives as a string. */
  datatype Js = Undefined | Null | Str(text: string) | Plain(plain: PlainText) | Boxed(identity: nat, shown: string)

  type Fields = map<string, Js>

  datatype Row = Row(kind: string, data: Fields)

  datatype Error = InvalidArguments | AttemptDuplicate | AttemptUnknown

  const INTENT: string := "attempt_intent"
  const OUTCOME: string := "attempt_outcome"
  const PATHS: set<string> := {"codex_queue", "fallback_file", "peer_send", "manual"}
  const OUTCOMES: set<string> := {"queued", "written", "failed", "unknown"}
  const INTENT_FIELDS: set<string> := {"phase", "messageId", "attemptId", "path", "receiverAlias", "receiverThreadId"}
  const OUTCOME_FIELDS: set<string> := {"phase", "messageId", "attemptId", "outcome", "returnedId", "errorCode"}

  function Get(data: Fields, key: string): Js
  {
    if key in data then data[key] else Undefined
  }

  /** What a regular expression is tested on. */
  function Shown(v: Js): string
  {
    match v
    case Undefined => "undefined"
    case Null => "null"
    case Str(text) => text
    case Plain(plain) => plain
    case Boxed(_, shown) => shown
  }

  function OrEmpty(v: Js): string
  {
    if v.Undefined? || v.Null? then "" else Shown(v)
  }

  /** `/^[a-z][a-z0-9-]{1,47}$/` */
  predicate IsAlias(s: string)
  {
    && 2 <= |s| <= 48 && 'a' <= s[0] <= 'z'
    && forall k :: 0 <= k < |s| ==> 'a' <= s[k] <= 'z' || '0' <= s[k] <= '9' || s[k] == '-'
  }

  /** `/^[A-Z][A-Z0-9_]{1,63}$/` */
  predicate IsCode(s: string)
  {
    && 2 <= |s| <= 64 && 'A' <= s[0] <= 'Z'
    && forall k :: 0 <= k < |s| ==> 'A' <= s[k] <= 'Z' || '0' <= s[k] <= '9' || s[k] == '_'
  }

  /** `sameUuid`: both must be strings. */
  predicate SameUuid(a: Js, b: Js)
  {
    a.Str? && b.Str? && IsLowerUuid(Lower(a.text)) && Lower(a.text) == Lower(b.text)
  }

  predicate OneOf(v: Js, texts: set<string>)
  {
    v.Str? && v.text in texts
  }

  predicate Absent(v: Js)
  {
    v.Undefined?
  }

  /** `attemptRow`; `None` is anything but a plain object. */
  function AttemptRow(args: Option<Fields>): Result<Row, Error>
  {
    if args.None? then Err(InvalidArguments)
    else
      var a := args.value;
      var phase := Get(a, "phase");
      var allowed := if phase == Str("intent") then INTENT_FIELDS else OUTCOME_FIELDS;
      if phase != Str("intent") && phase != Str("outcome") then Err(InvalidArguments)
      else if !(a.Keys <= allowed) then Err(InvalidArguments)
      else if !IsLowerUuid(OrEmpty(Get(a, "messageId"))) then Err(InvalidArguments)
      else if !IsLowerUuid(OrEmpty(Get(a, "attemptId"))) then Err(InvalidArguments)
      else if phase == Str("intent") then
        var alias, thread := Get(a, "receiverAlias"), Get(a, "receiverThreadId");
        if !OneOf(Get(a, "path"), PATHS) || (Absent(alias) && Absent(thread))
           || (!Absent(alias) && !IsAlias(Shown(alias))) || (!Absent(thread) && !IsLowerUuid(Shown(thread)))
        then Err(InvalidArguments)
        else Ok(Row(INTENT, a - {"phase"}))
      else
        var returned, code := Get(a, "returnedId"), Get(a, "errorCode");
        if !OneOf(Get(a, "outcome"), OUTCOMES)
           || (!Absent(returned) && !IsLowerUuid(Shown(returned))) || (!Absent(code) && !IsCode(Shown(code)))
        then Err(InvalidArguments)
        else Ok(Row(OUTCOME, a - {"phase"}))
  }

  // ---------- the check against the ledger ----------

  function IdOf(row: Row): Js
  {
    Get(row.data, "attemptId")
  }

  function MessageOf(row: Row): Js
  {
    Get(row.data, "messageId")
  }

  predicate IsAttempt(row: Row)
  {
    row.kind == INTENT || row.kind == OUTCOME
  }

  /** The rows of the same attempt. */
  function Same(events: seq<Row>, id: Js): seq<Row>
  {
    if events == [] then []
    else Same(Front(events), id) + (if IdOf(Last(events)) == id && IsAttempt(Last(events)) then [Last(events)] else [])
  }

  function First(rows: seq<Row>, kind: string): Option<Row>
  {
    if rows == [] then None else if rows[0].kind == kind then Some(rows[0]) else First(rows[1..], kind)
  }

  /** `attemptConflict` */
  function Conflict(row: Row, events: seq<Row>): Option<Error>
  {
    var same := Same(events, IdOf(row));
    if row.kind == INTENT && same != [] then Some(AttemptDuplicate)
    else if row.kind == OUTCOME then
      var intent := First(same, INTENT);
      if intent.None? then Some(AttemptUnknown)
      else if !SameUuid(MessageOf(intent.value), MessageOf(row)) then Some(AttemptUnknown)
      else if First(same, OUTCOME).Some? then Some(AttemptDuplicate)
      else None
    else None
  }

  function Record(events: seq<Row>, args: Option<Fields>): (seq<Row>, Option<Error>)
  {
    var row := AttemptRow(args);
    if row.Err? then (events, Some(row.error))
    else
      var refusal := Conflict(row.value, events);
      if refusal.Some? then (events, refusal) else (events + [row.value], None)
  }

  class Store {
    var events: seq<Row>

    constructor ()
      ensures events == []
    {
      events := [];
    }

    /** `recordAttempt`: the check is made inside the write chain. */
    method RecordAttempt(args: Option<Fields>) returns (refusal: Option<Error>)
      modifies this
      ensures (events, refusal) == Record(old(events), args)
      ensures refusal.Some? ==> events == old(events)
    {
      var row := AttemptRow(args);
      if row.Err? { return Some(row.error); }
      refusal := Conflict(row.value, events);
      if refusal.None? { events := events + [row.value]; }
    }
  }

  // ---------- runs ----------

  /** `Restart` reads the ledger back: every array in it is a new one, and different ones stay different. */
  datatype Event = Attempt(args: Option<Fields>) | Other(row: Row) | Restart(names: nat -> nat)

  ghost predicate Injective(names: nat -> nat)
  {
    forall a, b :: names(a) == names(b) ==> a == b
  }

  function Renamed(v: Js, names: nat -> nat): Js
  {
    if v.Boxed? then Boxed(names(v.identity), v.shown) else v
  }

  function ReadBack(row: Row, names: nat -> nat): Row
  {
    Row(row.kind, map key | key in row.data :: Renamed(row.data[key], names))
  }

  ghost function Step(events: seq<Row>, e: Event): seq<Row>
  {
    match e
    case Attempt(args) => Record(events, args).0
    case Other(row) => if IsAttempt(row) then events else events + [row]
    case Restart(names) =>
      if Injective(names) then seq(|events|, i requires 0 <= i < |events| => ReadBack(events[i], names)) else events
  }

  ghost function Ledger(run: seq<Event>): seq<Row>
  {
    if run == [] then [] else Step(Ledger(Front(run)), Last(run))
  }

  lemma {:induction false} SameHas(events: seq<Row>, id: Js, row: Row)
    ensures row in Same(events, id) <==> row in events && IdOf(row) == id && IsAttempt(row)
  {
    if events != [] {
      SameHas(Front(events), id, row);
      assert events == Front(events) + [Last(events)];
    }
  }

  lemma {:induction false} FirstHas(rows: seq<Row>, kind: string)
    ensures First(rows, kind).Some? <==> exists k :: 0 <= k < |rows| && rows[k].kind == kind
    ensures First(rows, kind).Some? ==> First(rows, kind).value in rows && First(rows, kind).value.kind == kind
  {
    if rows != [] && rows[0].kind != kind {
      FirstHas(rows[1..], kind);
      if k :| 0 <= k < |rows| && rows[k].kind == kind { assert rows[1..][k - 1] == rows[k]; }
    }
  }

  /** What the ledger says of attempts: at most one row of a kind for an id, and no outcome without an
      earlier intent for the same message. */
  ghost predicate Orderly(events: seq<Row>)
  {
    && (forall i, j ::
          0 <= i < j < |events| && IsAttempt(events[i]) && events[i].kind == events[j].kind
          ==> IdOf(events[i]) != IdOf(events[j]))
    && (forall j :: 0 <= j < |events| && events[j].kind == OUTCOME ==> HasIntent(events, j))
  }

  ghost predicate HasIntent(events: seq<Row>, j: nat)
    requires j < |events|
  {
    exists i :: 0 <= i < j && events[i].kind == INTENT && IdOf(events[i]) == IdOf(events[j])
        && SameUuid(MessageOf(events[i]), MessageOf(events[j]))
  }

  lemma {:induction false} SameFree(events: seq<Row>, id: Js)
    requires Same(events, id) == []
    ensures forall k :: 0 <= k < |events| && IsAttempt(events[k]) ==> IdOf(events[k]) != id
  {
    forall k | 0 <= k < |events| && IsAttempt(events[k]) ensures IdOf(events[k]) != id {
      SameHas(events, id, events[k]);
    }
  }

  lemma NoneOfKind(rows: seq<Row>, row: Row)
    ensures First(rows, row.kind).None? ==> row !in rows
  {
    FirstHas(rows, row.kind);
  }

  lemma OutcomeAllowed(events: seq<Row>, row: Row)
    requires row.kind == OUTCOME && Conflict(row, events) == None
    ensures forall k :: 0 <= k < |events| && events[k].kind == OUTCOME ==> IdOf(events[k]) != IdOf(row)
    ensures exists i :: 0 <= i < |events| && events[i].kind == INTENT && IdOf(events[i]) == IdOf(row)
                        && SameUuid(MessageOf(events[i]), MessageOf(row))
  {
    hide SameUuid;
    var same := Same(events, IdOf(row));
    FirstHas(same, INTENT);
    FirstHas(same, OUTCOME);
    forall k | 0 <= k < |events| && events[k].kind == OUTCOME ensures IdOf(events[k]) != IdOf(row) {
      SameHas(events, IdOf(row), events[k]);
      NoneOfKind(same, events[k]);
    }
    SameHas(events, IdOf(row), First(same, INTENT).value);
    var i :| 0 <= i < |events| && events[i] == First(same, INTENT).value;
  }

  lemma HasIntentGrows(events: seq<Row>, row: Row)
    ensures forall j :: 0 <= j < |events| && HasIntent(events, j) ==> HasIntent(events + [row], j)
  {
    hide SameUuid;
    var after := events + [row];
    forall j | 0 <= j < |events| && HasIntent(events, j) ensures HasIntent(after, j) {
      var i :| 0 <= i < j && events[i].kind == INTENT && IdOf(events[i]) == IdOf(events[j])
          && SameUuid(MessageOf(events[i]), MessageOf(events[j]));
      assert after[i] == events[i] && after[j] == events[j];
    }
  }

  lemma RowKind(args: Option<Fields>)
    requires AttemptRow(args).Ok?
    ensures IsAttempt(AttemptRow(args).value)
  {
  }

  lemma StepOrderly(events: seq<Row>, e: Event)
    requires Orderly(events) && !e.Restart?
    ensures Orderly(Step(events, e))
  {
    hide AttemptRow, SameUuid, Conflict, IdOf, MessageOf;
    var after := Step(events, e);
    if after != events {
      var row := if e.Other? then e.row else AttemptRow(e.args).value;
      assert after == events + [row];
      HasIntentGrows(events, row);
      if e.Attempt? {
        RowKind(e.args);
        if row.kind == INTENT {
          IntentAllowed(events, row);
        } else {
          OutcomeAllowed(events, row);
          assert HasIntent(after, |events|) by {
            var i :| 0 <= i < |events| && events[i].kind == INTENT && IdOf(events[i]) == IdOf(row)
                && SameUuid(MessageOf(events[i]), MessageOf(row));
            assert after[i] == events[i];
          }
        }
      }
      forall j | 0 <= j < |after| && after[j].kind == OUTCOME ensures HasIntent(after, j) {
        if j < |events| { assert after[j] == events[j] && HasIntent(events, j); }
      }
    }
  }

  lemma ReadBackSame(row: Row, names: nat -> nat)
    ensures var back := ReadBack(row, names);
            && back.kind == row.kind
            && IdOf(back) == Renamed(IdOf(row), names) && MessageOf(back) == Renamed(MessageOf(row), names)
  {
  }

  lemma RestartOrderly(events: seq<Row>, names: nat -> nat)
    requires Orderly(events)
    ensures Orderly(Step(events, Restart(names)))
  {
    hide IdOf, MessageOf, ReadBack;
    if Injective(names) {
      var after := Step(events, Restart(names));
      forall i | 0 <= i < |events|
        ensures after[i].kind == events[i].kind
        ensures IdOf(after[i]) == Renamed(IdOf(events[i]), names)
        ensures MessageOf(after[i]) == Renamed(MessageOf(events[i]), names)
      {
        ReadBackSame(events[i], names);
      }
      forall j | 0 <= j < |after| && after[j].kind == OUTCOME ensures HasIntent(after, j) {
        assert HasIntent(events, j);
        var i :| 0 <= i < j && events[i].kind == INTENT && IdOf(events[i]) == IdOf(events[j])
            && SameUuid(MessageOf(events[i]), MessageOf(events[j]));
        assert after[i].kind == INTENT;
      }
    }
  }

  lemma IntentAllowed(events: seq<Row>, row: Row)
    requires row.kind == INTENT && Conflict(row, events) == None
    ensures forall k :: 0 <= k < |events| && IsAttempt(events[k]) ==> IdOf(events[k]) != IdOf(row)
  {
    SameFree(events, IdOf(row));
  }

  /** Over any run of calls, other rows and restarts: each attempt id has at most one intent and one
      outcome, and every outcome follows an intent for the same message. */
  lemma {:induction false} AlwaysOrderly(run: seq<Event>)
    ensures Orderly(Ledger(run))
  {
    hide Step, Orderly;
    if run == [] {
      NothingOrderly();
    } else {
      AlwaysOrderly(Front(run));
      if Last(run).Restart? {
        RestartOrderly(Ledger(Front(run)), Last(run).names);
      } else {
        StepOrderly(Ledger(Front(run)), Last(run));
      }
    }
  }

  lemma NothingOrderly()
    ensures Orderly([])
  {
  }

  // ---------- the scan as a map ----------

  datatype Phase = Intended(message: Js) | Done

  /** What a store that kept one entry for each attempt would hold. */
  function Phases(events: seq<Row>): map<Js, Phase>
  {
    if events == [] then map[]
    else
      var before, row := Phases(Front(events)), Last(events);
      if row.kind == INTENT then before[IdOf(row) := Intended(MessageOf(row))]
      else if row.kind == OUTCOME then before[IdOf(row) := Done]
      else before
  }

  predicate Open(phases: map<Js, Phase>, row: Row)
  {
    if row.kind == INTENT then IdOf(row) !in phases
    else IdOf(row) in phases && phases[IdOf(row)].Intended? && SameUuid(phases[IdOf(row)].message, MessageOf(row))
  }

  lemma {:induction false} PhaseOf(events: seq<Row>, id: Js)
    requires Orderly(events)
    ensures var same := Same(events, id);
            && (id !in Phases(events) <==> same == [])
            && (id in Phases(events) && Phases(events)[id] == Done <==> First(same, OUTCOME).Some?)
            && (id in Phases(events) && Phases(events)[id].Intended? ==>
                  First(same, INTENT).Some? && Phases(events)[id] == Intended(MessageOf(First(same, INTENT).value)))
  {
    hide SameUuid, MessageOf;
    if events != [] {
      var row, before := Last(events), Same(Front(events), id);
      FrontOrderly(events);
      PhaseOf(Front(events), id);
      if IdOf(row) == id && IsAttempt(row) {
        FirstAppend(before, row, INTENT);
        FirstAppend(before, row, OUTCOME);
        if row.kind == INTENT { NoEarlier(events); }
      } else {
        assert Same(events, id) == before;
      }
    }
  }

  lemma FrontOrderly(events: seq<Row>)
    requires events != [] && Orderly(events)
    ensures Orderly(Front(events))
  {
    hide SameUuid, IdOf, MessageOf;
    var front := Front(events);
    forall j | 0 <= j < |front| && front[j].kind == OUTCOME ensures HasIntent(front, j) {
      assert HasIntent(events, j);
      var i :| 0 <= i < j && events[i].kind == INTENT && IdOf(events[i]) == IdOf(events[j])
          && SameUuid(MessageOf(events[i]), MessageOf(events[j]));
      assert front[i] == events[i] && front[j] == events[j];
    }
  }

  lemma {:induction false} FirstAppend(rows: seq<Row>, row: Row, kind: string)
    ensures First(rows + [row], kind) ==
            if First(rows, kind).Some? then First(rows, kind)
            else if row.kind == kind then Some(row)
            else None
  {
    if rows == [] {
      assert rows + [row] == [row] && [row][1..] == [];
    } else {
      assert (rows + [row])[0] == rows[0] && (rows + [row])[1..] == rows[1..] + [row];
      FirstAppend(rows[1..], row, kind);
    }
  }

  /** An intent is the first row of its attempt. */
  lemma NoEarlier(events: seq<Row>)
    requires events != [] && Orderly(events) && Last(events).kind == INTENT
    ensures Same(Front(events), IdOf(Last(events))) == []
  {
    hide SameUuid, MessageOf;
    var id, front := IdOf(Last(events)), Front(events);
    forall k | 0 <= k < |front| && IsAttempt(front[k]) ensures IdOf(front[k]) != id {
      if events[k].kind == OUTCOME {
        assert HasIntent(events, k);
        var i :| 0 <= i < k && events[i].kind == INTENT && IdOf(events[i]) == IdOf(events[k]);
        assert IdOf(events[i]) != IdOf(events[|events| - 1]);
      }
    }
    SameNone(front, id);
  }

  lemma {:induction false} SameNone(events: seq<Row>, id: Js)
    requires forall k :: 0 <= k < |events| && IsAttempt(events[k]) ==> IdOf(events[k]) != id
    ensures Same(events, id) == []
  {
    if events != [] {
      assert Last(events) == events[|events| - 1];
      SameNone(Front(events), id);
    }
  }

  /** The scan of the ledger decides as a map of none, intended and done would. */
  lemma ScanIsMap(run: seq<Event>, row: Row)
    requires IsAttempt(row)
    ensures Conflict(row, Ledger(run)) == None <==> Open(Phases(Ledger(run)), row)
  {
    hide SameUuid, MessageOf, IdOf;
    AlwaysOrderly(run);
    PhaseOf(Ledger(run), IdOf(row));
    var same := Same(Ledger(run), IdOf(row));
    if First(same, INTENT).None? && First(same, OUTCOME).None? { BothKinds(Ledger(run), IdOf(row)); }
  }

  lemma BothKinds(events: seq<Row>, id: Js)
    requires First(Same(events, id), INTENT).None? && First(Same(events, id), OUTCOME).None?
    ensures Same(events, id) == []
  {
    var same := Same(events, id);
    FirstHas(same, INTENT);
    FirstHas(same, OUTCOME);
    if same != [] { SameHas(events, id, same[0]); }
  }

  // ---------- an id that is not a string ----------

  /** A second intent whose id reads the same is refused if and only if it is the same value. The check
      of the arguments lets a one-element array stand for the string in it, and two arrays never are. */
  lemma RepeatRefusedIff(events: seq<Row>, row: Row, again: Row)
    requires row.kind == INTENT && again.kind == INTENT && Conflict(again, events) == None
    ensures Conflict(again, events + [row]) == Some(AttemptDuplicate) <==> IdOf(again) == IdOf(row)
    ensures IdOf(row).Str? && IdOf(again).Str? && Shown(IdOf(row)) == Shown(IdOf(again))
        ==> Conflict(again, events + [row]) == Some(AttemptDuplicate)
  {
    assert Front(events + [row]) == events;
  }

  lemma AttemptIdShape(args: Option<Fields>)
    requires AttemptRow(args).Ok?
    ensures var id := IdOf(AttemptRow(args).value);
            IsLowerUuid(Shown(id)) && (id.Str? || id.Boxed?)
  {
  }

  ghost predicate Shaped(events: seq<Row>)
  {
    forall k :: 0 <= k < |events| && IsAttempt(events[k]) ==> IdOf(events[k]).Str? || IdOf(events[k]).Boxed?
  }

  lemma {:induction false} AlwaysShaped(run: seq<Event>)
    ensures Shaped(Ledger(run))
  {
    hide AttemptRow, Conflict, IdOf, ReadBack;
    if run != [] {
      var before := Ledger(Front(run));
      AlwaysShaped(Front(run));
      match Last(run)
      case Attempt(args) => if AttemptRow(args).Ok? { AttemptIdShape(args); }
      case Restart(names) =>
        forall k | 0 <= k < |before|
          ensures ReadBack(before[k], names).kind == before[k].kind
          ensures IdOf(ReadBack(before[k], names)) == Renamed(IdOf(before[k]), names)
        {
          ReadBackSame(before[k], names);
        }
      case Other(_) =>
    }
  }

  /** In every run: two intents that read the same, or two outcomes, occur only where one of the ids is
      not a string. */
  lemma RepeatsAreBoxed(run: seq<Event>, i: nat, j: nat)
    requires var events := Ledger(run);
             && i < j < |events| && IsAttempt(events[i]) && events[i].kind == events[j].kind
             && Shown(IdOf(events[i])) == Shown(IdOf(events[j]))
    ensures IdOf(Ledger(run)[i]).Boxed? || IdOf(Ledger(run)[j]).Boxed?
  {
    hide IdOf, Ledger;
    AlwaysOrderly(run);
    AlwaysShaped(run);
  }

  const AN_ID: string := "01234567-89ab-4cde-8fab-0123456789ab"

  function BoxedArgs(identity: nat): Fields
  {
    map["phase" := Str("intent"), "messageId" := Str(AN_ID), "attemptId" := Boxed(identity, AN_ID),
        "path" := Str("manual"), "receiverThreadId" := Str(AN_ID)]
  }

  /** So the rule holds for ids that are strings, and not for `["<uuid>"]`: this run records two intents
      that read the same in the ledger. */
  lemma BoxedIdsRepeat()
    ensures var events := Ledger([Attempt(Some(BoxedArgs(1))), Attempt(Some(BoxedArgs(2)))]);
            |events| == 2 && events[0].kind == INTENT && events[1].kind == INTENT
                && Shown(IdOf(events[0])) == Shown(IdOf(events[1]))
  {
    hide IsLowerUuid, AttemptRow, BoxedArgs, AN_ID, Ledger, Conflict;
    BoxedRow(1);
    BoxedRow(2);
    TwoSteps(Attempt(Some(BoxedArgs(1))), Attempt(Some(BoxedArgs(2))));
    TwoIntents(AttemptRow(Some(BoxedArgs(1))).value, AttemptRow(Some(BoxedArgs(2))).value);
  }

  lemma TwoSteps(a: Event, b: Event)
    ensures Ledger([a, b]) == Step(Step([], a), b)
  {
    hide Step;
    assert Front([a, b]) == [a] && Last([a, b]) == b && Front([a]) == [] && Last([a]) == a;
    assert Ledger([]) == [] && Ledger([a]) == Step(Ledger([]), a);
    assert Ledger([a, b]) == Step(Ledger([a]), b);
  }

  lemma TwoIntents(a: Row, b: Row)
    requires a.kind == INTENT && b.kind == INTENT && IdOf(a) != IdOf(b)
    ensures Conflict(a, []) == None && Conflict(b, [a]) == None
    ensures [] + [a] == [a]
  {
    hide IdOf;
    assert Front([a]) == [] && Last([a]) == a;
    assert Same([], IdOf(b)) == [] && Same([a], IdOf(b)) == Same([], IdOf(b)) + [];
  }

  lemma AnIdIsUuid()
    ensures IsLowerUuid(AN_ID)
  {
  }

  lemma BoxedRow(identity: nat)
    ensures AttemptRow(Some(BoxedArgs(identity))) == Ok(Row(INTENT, BoxedArgs(identity) - {"phase"}))
    ensures IdOf(AttemptRow(Some(BoxedArgs(identity))).value) == Boxed(identity, AN_ID)
  {
    hide IsLowerUuid;
    AnIdIsUuid();
  }

  // ---------- what can be in an attempt row ----------

  predicate UuidShown(v: Js)
  {
    IsLowerUuid(Shown(v))
  }

  /** The closed shape of an intent: ids, a path name, and an alias or a thread. */
  predicate ClosedIntent(d: Fields)
  {
    && d.Keys <= {"messageId", "attemptId", "path", "receiverAlias", "receiverThreadId"}
    && UuidShown(Get(d, "messageId")) && UuidShown(Get(d, "attemptId"))
    && OneOf(Get(d, "path"), PATHS)
    && (!Absent(Get(d, "receiverAlias")) || !Absent(Get(d, "receiverThreadId")))
    && (Absent(Get(d, "receiverAlias")) || IsAlias(Shown(Get(d, "receiverAlias"))))
    && (Absent(Get(d, "receiverThreadId")) || UuidShown(Get(d, "receiverThreadId")))
  }

  /** The closed shape of an outcome: ids, the outcome, and an id or a code that came back. */
  predicate ClosedOutcome(d: Fields)
  {
    && d.Keys <= {"messageId", "attemptId", "outcome", "returnedId", "errorCode"}
    && UuidShown(Get(d, "messageId")) && UuidShown(Get(d, "attemptId"))
    && OneOf(Get(d, "outcome"), OUTCOMES)
    && (Absent(Get(d, "returnedId")) || UuidShown(Get(d, "returnedId")))
    && (Absent(Get(d, "errorCode")) || IsCode(Shown(Get(d, "errorCode"))))
  }

  predicate Closed(row: Row)
  {
    (row.kind == INTENT ==> ClosedIntent(row.data)) && (row.kind == OUTCOME ==> ClosedOutcome(row.data))
  }

  /** Arguments are accepted if and only if they say which phase it is and are otherwise of its closed shape;
      they are recorded as they are. There is no field for text. */
  lemma AcceptedIff(args: Option<Fields>)
    ensures AttemptRow(args).Ok? <==>
            (&& args.Some?
             && var (phase, rest) := (Get(args.value, "phase"), args.value - {"phase"});
             (phase == Str("intent") && ClosedIntent(rest)) || (phase == Str("outcome") && ClosedOutcome(rest)))
    ensures AttemptRow(args).Ok? ==>
              var kind := if Get(args.value, "phase") == Str("intent") then INTENT else OUTCOME;
              AttemptRow(args) == Ok(Row(kind, args.value - {"phase"}))
  {
    hide IsLowerUuid, IsAlias, IsCode, PATHS, OUTCOMES, INTENT_FIELDS, OUTCOME_FIELDS;
    if args.Some? {
      var a := args.value;
      assert forall key :: key != "phase" ==> Get(a - {"phase"}, key) == Get(a, key);
      NoIds();
      FieldSets();
      WithoutPhase(a, INTENT_FIELDS);
      WithoutPhase(a, OUTCOME_FIELDS);
    }
  }

  lemma WithoutPhase(a: Fields, allowed: set<string>)
    requires "phase" in allowed
    ensures a.Keys <= allowed <==> (a - {"phase"}).Keys <= allowed - {"phase"}
  {
    assert (a - {"phase"}).Keys == a.Keys - {"phase"};
    if (a - {"phase"}).Keys <= allowed - {"phase"} {
      forall key | key in a.Keys ensures key in allowed {
        assert key != "phase" ==> key in (a - {"phase"}).Keys;
      }
    }
  }

  lemma FieldSets()
    ensures "phase" in INTENT_FIELDS && "phase" in OUTCOME_FIELDS
    ensures INTENT_FIELDS - {"phase"} == {"messageId", "attemptId", "path", "receiverAlias", "receiverThreadId"}
    ensures OUTCOME_FIELDS - {"phase"} == {"messageId", "attemptId", "outcome", "returnedId", "errorCode"}
  {
    assert "phase"[0] == 'p' && "phase"[1] == 'h' && "path"[1] == 'a' && "messageId"[0] == 'm' && "attemptId"[0] == 'a';
    assert "receiverAlias"[0] == "receiverThreadId"[0] == "returnedId"[0] == 'r';
    assert "outcome"[0] == 'o' && "errorCode"[0] == 'e';
  }

  lemma NoIds()
    ensures !IsLowerUuid("") && !IsLowerUuid("undefined") && !IsLowerUuid("null")
  {
  }

  lemma ClosedBack(row: Row, names: nat -> nat)
    requires Closed(row)
    ensures Closed(ReadBack(row, names))
  {
    hide IsLowerUuid, IsAlias, IsCode, PATHS, OUTCOMES;
    var back := ReadBack(row, names);
    assert back.data.Keys == row.data.Keys;
    assert forall key :: Get(back.data, key) == Renamed(Get(row.data, key), names);
  }

  /** In every run, every attempt row in the ledger has the closed shape of its kind. */
  lemma {:induction false} AlwaysClosed(run: seq<Event>)
    ensures forall k :: 0 <= k < |Ledger(run)| ==> Closed(Ledger(run)[k])
  {
    hide AttemptRow, Conflict, ReadBack, ClosedIntent, ClosedOutcome;
    if run != [] {
      var before := Ledger(Front(run));
      AlwaysClosed(Front(run));
      match Last(run)
      case Attempt(args) => AcceptedIff(args);
      case Restart(names) =>
        forall k | 0 <= k < |before| ensures Closed(ReadBack(before[k], names)) { ClosedBack(before[k], names); }
      case Other(_) =>
    }
  }

  // ---------- what an outcome answers ----------

  lemma LowerUuidIsLower(s: string)
    requires IsLowerUuid(s)
    ensures Lower(s) == s
  {
    forall k | 0 <= k < |s| ensures LowerChar(s[k]) == s[k] {
      assert k !in {8, 13, 18, 23} ==> '0' <= s[k] <= '9' || 'a' <= s[k] <= 'f';
    }
  }

  /** For message ids of the closed shape: both are strings, and the same one. */
  lemma SameMessage(a: Js, b: Js)
    requires UuidShown(a) && UuidShown(b)
    ensures SameUuid(a, b) <==> a.Str? && a == b
  {
    if a.Str? { LowerUuidIsLower(a.text); }
    if b.Str? { LowerUuidIsLower(b.text); }
  }

  ghost predicate IntentOf(events: seq<Row>, row: Row, i: nat)
  {
    && i < |events| && events[i].kind == INTENT && IdOf(events[i]) == IdOf(row)
    && MessageOf(row).Str? && MessageOf(events[i]) == MessageOf(row)
  }

  /** In every run, after any rows: an outcome of the closed shape is recorded if and only if an intent with its
      id is there for the very same message, and no outcome with that id; an intent, if and only if no attempt
      row with its id is there. */
  lemma RecordedIff(run: seq<Event>, row: Row)
    requires IsAttempt(row) && Closed(row)
    ensures var events := Ledger(run);
            && (row.kind == OUTCOME ==>
                  (Conflict(row, events) == None <==>
                   && (exists i: nat :: IntentOf(events, row, i))
                   && forall k :: 0 <= k < |events| && events[k].kind == OUTCOME ==> IdOf(events[k]) != IdOf(row)))
            && (row.kind == INTENT ==>
                  (Conflict(row, events) == None
                   <==> forall k :: 0 <= k < |events| && IsAttempt(events[k]) ==> IdOf(events[k]) != IdOf(row)))
  {
    hide SameUuid, ClosedIntent, ClosedOutcome, UuidShown, Ledger;
    var events := Ledger(run);
    AlwaysOrderly(run);
    AlwaysClosed(run);
    forall k | 0 <= k < |events| && IsAttempt(events[k])
      ensures SameUuid(MessageOf(events[k]), MessageOf(row))
         <==> MessageOf(events[k]).Str? && MessageOf(events[k]) == MessageOf(row)
    {
      MessageShown(events[k]);
      MessageShown(row);
      SameMessage(MessageOf(events[k]), MessageOf(row));
    }
    if row.kind == INTENT {
      if Conflict(row, events) == None { SameFree(events, IdOf(row)); }
      if forall k :: 0 <= k < |events| && IsAttempt(events[k]) ==> IdOf(events[k]) != IdOf(row) {
        SameNone(events, IdOf(row));
      }
    } else {
      if Conflict(row, events) == None {
        OutcomeAllowed(events, row);
        var i: nat :| i < |events| && events[i].kind == INTENT && IdOf(events[i]) == IdOf(row)
          && SameUuid(MessageOf(events[i]), MessageOf(row));
        assert IntentOf(events, row, i);
      }
      if i: nat :| IntentOf(events, row, i) {
        OutcomeAccepted(events, row, i);
      }
    }
  }

  lemma MessageShown(row: Row)
    requires IsAttempt(row) && Closed(row)
    ensures UuidShown(MessageOf(row))
  {
    hide IsLowerUuid, OneOf, IsAlias, IsCode;
  }

  lemma OutcomeAccepted(events: seq<Row>, row: Row, i: nat)
    requires row.kind == OUTCOME && Orderly(events) && IntentOf(events, row, i)
    requires SameUuid(MessageOf(events[i]), MessageOf(row))
    ensures (forall k :: 0 <= k < |events| && events[k].kind == OUTCOME ==> IdOf(events[k]) != IdOf(row))
        ==> Conflict(row, events) == None
  {
    hide SameUuid, MessageOf, IdOf;
    var same := Same(events, IdOf(row));
    FirstHas(same, INTENT);
    FirstHas(same, OUTCOME);
    SameHas(events, IdOf(row), events[i]);
    assert IsAttempt(events[i]);
    var there :| 0 <= there < |same| && same[there] == events[i];
    var intent := First(same, INTENT).value;
    SameHas(events, IdOf(row), intent);
    var j :| 0 <= j < |events| && events[j] == intent;
    assert events[i] == intent;
    if First(same, OUTCOME).Some? {
      var outcome := First(same, OUTCOME).value;
      SameHas(events, IdOf(row), outcome);
      var k :| 0 <= k < |events| && events[k] == outcome;
    }
  }
}
